/**
 The state file of the checkpoint replay guard: the JSON document the guard writes, the
 legacy bare integer it still reads, and the loader that turns either into a guard state.
 */
module GuardFile {
  import opened Bytes

  /** The checkpoint signed at the current mark, with the signature it got. */
  datatype Memo = Memo(checkpoint: bytes, signature: bytes)

  /** What the guard knows: the high-water mark and, when present, the memo for it. */
  datatype Guard = Guard(mark: uint64, memo: Option<Memo>) {
    /** The shape of every state the handler can persist. */
    predicate WellFormed() {
      memo.Some? ==> |memo.value.checkpoint| == 32 && |memo.value.signature| == 64
    }
  }

  /** The outcome of reading a state file. */
  datatype Loaded = Ok(guard: Guard) | Corrupt

  /** A decoded document. */
  datatype Document = Document(mark: uint64, checkpoint: string, signature: string)

  /** What the JSON library makes of a text that is not in the shape the guard writes: a
      document, or an error. Nothing is assumed about it. */
  type Json = string -> Option<Document>

  // ---------------------------------------------------------------- decimal numbers

  predicate IsDigit(c: char) { '0' <= c <= '9' }

  function Digit(n: nat): (c: char)
    requires n < 10
    ensures IsDigit(c)
  {
    '0' + n as char
  }

  function Decimal(n: nat): (s: string)
    ensures s != [] && (forall c :: c in s ==> IsDigit(c))
  {
    if n < 10 then [Digit(n)] else Decimal(n / 10) + [Digit(n % 10)]
  }

  function DecimalValue(s: string): nat
    requires forall c :: c in s ==> IsDigit(c)
  {
    if s == [] then 0
    else
      assert IsDigit(s[|s| - 1]);
      10 * DecimalValue(s[..|s| - 1]) + (s[|s| - 1] as int - '0' as int)
  }

  function Pow10(k: nat): nat { if k == 0 then 1 else 10 * Pow10(k - 1) }

  lemma ShiftPlace(x: int, p: int, d: int)
    ensures 10 * (x * p + d) == x * (10 * p) + 10 * d
  {
    assert 10 * (x * p) == x * (10 * p);
  }

  /** Place value: every place counts ten times the next, and one digit is itself. */
  lemma {:induction false} DecimalPlaces(s: string, t: string)
    requires (forall c :: c in s ==> IsDigit(c)) && (forall c :: c in t ==> IsDigit(c))
    ensures forall c :: c in s + t ==> IsDigit(c)
    ensures DecimalValue(s + t) == DecimalValue(s) * Pow10(|t|) + DecimalValue(t)
  {
    if t == [] {
      assert s + t == s;
      assert DecimalValue(s) * Pow10(0) == DecimalValue(s);
    } else {
      var u := t[..|t| - 1];
      assert (s + t)[..|s + t| - 1] == s + u;
      DecimalPlaces(s, u);
      ShiftPlace(DecimalValue(s), Pow10(|u|), DecimalValue(u));
    }
  }

  lemma DecimalDigit(c: char)
    requires IsDigit(c)
    ensures DecimalValue([c]) == c as int - '0' as int
  {
    assert [c][..0] == [];
  }

  /** strconv.ParseUint(s, 10, 64). */
  function ParseUint(s: string): Option<uint64> {
    if s == [] || exists c :: c in s && !IsDigit(c) then None
    else if DecimalValue(s) < TWO64 then Some(DecimalValue(s))
    else None
  }

  lemma {:induction false} DecimalRoundTrip(n: nat)
    ensures DecimalValue(Decimal(n)) == n
    ensures |Decimal(n)| > 1 ==> Decimal(n)[0] != '0'
    ensures n > 0 ==> Decimal(n)[0] != '0'
  {
    if n >= 10 {
      DecimalRoundTrip(n / 10);
      var s := Decimal(n);
      assert s[..|s| - 1] == Decimal(n / 10);
    }
  }

  // -------------------------------------------------- hexadecimal (RFC 4648 section 8)

  function HexDigit(n: nat): char
    requires n < 16
  {
    if n < 10 then '0' + n as char else 'a' + (n - 10) as char
  }

  function HexValue(c: char): (r: Option<nat>)
    ensures r.Some? ==> r.value < 16
  {
    if '0' <= c <= '9' then Some(c as int - '0' as int)
    else if 'a' <= c <= 'f' then Some(c as int - 'a' as int + 10)
    else if 'A' <= c <= 'F' then Some(c as int - 'A' as int + 10)
    else None
  }

  /** Text that stands for itself between quotes in JSON. */
  predicate Plain(s: string) { '"' !in s && '\\' !in s }

  function EncodeHex(b: bytes): string {
    if b == [] then [] else [HexDigit(b[0] / 16), HexDigit(b[0] % 16)] + EncodeHex(b[1..])
  }

  function DecodeHex(s: string): Option<bytes> {
    if s == [] then Some([])
    else if |s| == 1 then None
    else
      match (HexValue(s[0]), HexValue(s[1]), DecodeHex(s[2..]))
      case (Some(hi), Some(lo), Some(rest)) => Some([16 * hi + lo] + rest)
      case _ => None
  }

  const HEX := "0123456789abcdef"

  lemma HexDigitValue(n: nat)
    requires n < 16
    ensures HexValue(HexDigit(n)) == Some(n) && HexDigit(n) != '"' && HexDigit(n) != '\\'
  {
  }

  lemma {:induction false} HexRoundTrip(b: bytes)
    ensures DecodeHex(EncodeHex(b)) == Some(b)
    ensures |EncodeHex(b)| == 2 * |b| && Plain(EncodeHex(b))
  {
    if b != [] {
      var s := EncodeHex(b);
      HexRoundTrip(b[1..]);
      HexDigitValue(b[0] / 16);
      HexDigitValue(b[0] % 16);
      assert s[0] == HexDigit(b[0] / 16) && s[1] == HexDigit(b[0] % 16) && s[2..] == EncodeHex(b[1..]);
      assert 16 * (b[0] / 16) + b[0] % 16 == b[0];
      assert b == [b[0]] + b[1..];
    }
  }

  lemma HexDigitText(n: nat)
    requires n < 16
    ensures HexDigit(n) == HEX[n]
  {
  }

  function LowerChar(c: char): char { if 'A' <= c <= 'F' then c - 'A' + 'a' else c }

  function Lower(s: string): (r: string)
    ensures |r| == |s|
  {
    seq(|s|, i requires 0 <= i < |s| => LowerChar(s[i]))
  }

  lemma HexValueDigit(c: char)
    ensures HexValue(c).Some? <==> LowerChar(c) in HEX
    ensures HexValue(c).Some? ==> HexDigit(HexValue(c).value) == LowerChar(c)
  {
    if LowerChar(c) in HEX {
      var i :| 0 <= i < |HEX| && HEX[i] == LowerChar(c);
      HexDigitText(i);
    }
    if HexValue(c).Some? {
      HexDigitText(HexValue(c).value);
    }
  }

  /** A text decodes to b exactly if it is the encoding of b, in either case of letters. */
  lemma {:induction false} DecodeHexIff(s: string, b: bytes)
    ensures DecodeHex(s) == Some(b) <==> Lower(s) == EncodeHex(b)
  {
    HexRoundTrip(b);
    if |s| >= 2 && b != [] {
      DecodeHexIff(s[2..], b[1..]);
      HexPair(s[0], s[1], b[0]);
      assert Lower(s) == [LowerChar(s[0]), LowerChar(s[1])] + Lower(s[2..]);
      assert Lower(s)[2..] == Lower(s[2..]) && EncodeHex(b)[2..] == EncodeHex(b[1..]);
      assert b == [b[0]] + b[1..];
      DecodeHexStep(s);
    } else if |s| == 1 {
      assert |EncodeHex(b)| != 1;
    } else if |s| >= 2 {
      DecodeHexStep(s);
    }
  }

  lemma DecodeHexStep(s: string)
    requires |s| >= 2
    ensures DecodeHex(s).Some? <==> HexValue(s[0]).Some? && HexValue(s[1]).Some? && DecodeHex(s[2..]).Some?
    ensures DecodeHex(s).Some? ==>
              DecodeHex(s).value == [16 * HexValue(s[0]).value + HexValue(s[1]).value] + DecodeHex(s[2..]).value
  {
  }

  lemma HexPair(hi: char, lo: char, x: byte)
    ensures HexValue(hi).Some? && HexValue(lo).Some? && x == 16 * HexValue(hi).value + HexValue(lo).value
            <==> LowerChar(hi) == HexDigit(x / 16) && LowerChar(lo) == HexDigit(x % 16)
  {
    HexValueDigit(hi);
    HexValueDigit(lo);
    HexDigitValue(x / 16);
    HexDigitValue(x % 16);
  }

  /** An absent field is `None`; a present one must be hex of exactly `want` bytes. */
  function DecodeOptionalHex(s: string, want: nat): (r: Option<Option<bytes>>)
    ensures r.Some? && r.value.Some? ==> |r.value.value| == want
  {
    if s == [] then Some(None)
    else
      match DecodeHex(s)
      case None => None
      case Some(b) => if |b| == want then Some(Some(b)) else None
  }

  // ----------------------------------------------------------------------- white space

  /** The Unicode White_Space characters, which strings.TrimSpace removes. */
  predicate IsSpace(c: char) {
    var n := c as int;
    || 0x09 <= n <= 0x0D || n == 0x20 || n == 0x85 || n == 0xA0 || n == 0x1680
    || 0x2000 <= n <= 0x200A || n == 0x2028 || n == 0x2029 || n == 0x202F || n == 0x205F || n == 0x3000
  }

  function TrimLeft(s: string): string {
    if s != [] && IsSpace(s[0]) then TrimLeft(s[1..]) else s
  }

  function TrimRight(s: string): string {
    if s != [] && IsSpace(s[|s| - 1]) then TrimRight(s[..|s| - 1]) else s
  }

  function TrimSpace(s: string): string { TrimRight(TrimLeft(s)) }

  lemma {:induction false} TrimLeftPadding(pre: string, s: string)
    requires forall c :: c in pre ==> IsSpace(c)
    requires s != [] && !IsSpace(s[0])
    ensures TrimLeft(pre + s) == s
  {
    if pre == [] {
      assert pre + s == s;
    } else {
      assert (pre + s)[1..] == pre[1..] + s;
      TrimLeftPadding(pre[1..], s);
    }
  }

  lemma {:induction false} TrimRightPadding(s: string, post: string)
    requires forall c :: c in post ==> IsSpace(c)
    requires s != [] && !IsSpace(s[|s| - 1])
    ensures TrimRight(s + post) == s
  {
    if post == [] {
      assert s + post == s;
    } else {
      var t := s + post;
      assert t[..|t| - 1] == s + post[..|post| - 1];
      TrimRightPadding(s, post[..|post| - 1]);
    }
  }

  lemma TrimPadding(pre: string, s: string, post: string)
    requires forall c :: c in pre + post ==> IsSpace(c)
    requires s != [] && !IsSpace(s[0]) && !IsSpace(s[|s| - 1])
    ensures TrimSpace(pre + s + post) == s
  {
    assert forall c :: c in pre ==> c in pre + post;
    assert forall c :: c in post ==> c in pre + post;
    assert pre + s + post == pre + (s + post);
    TrimLeftPadding(pre, s + post);
    TrimRightPadding(s, post);
  }

  lemma {:induction false} TrimLeftMeans(s: string) returns (pre: string)
    ensures s == pre + TrimLeft(s) && forall c :: c in pre ==> IsSpace(c)
    ensures TrimLeft(s) != [] ==> !IsSpace(TrimLeft(s)[0])
  {
    pre := [];
    if s != [] && IsSpace(s[0]) {
      var rest := TrimLeftMeans(s[1..]);
      pre := [s[0]] + rest;
      assert s == [s[0]] + s[1..];
    }
  }

  lemma {:induction false} TrimRightMeans(s: string) returns (post: string)
    ensures s == TrimRight(s) + post && forall c :: c in post ==> IsSpace(c)
    ensures TrimRight(s) != [] ==> !IsSpace(TrimRight(s)[|TrimRight(s)| - 1])
  {
    post := [];
    if s != [] && IsSpace(s[|s| - 1]) {
      var rest := TrimRightMeans(s[..|s| - 1]);
      post := rest + [s[|s| - 1]];
      assert s == s[..|s| - 1] + [s[|s| - 1]];
    }
  }

  /** Every text is white space, its trimmed form, and white space; the trimmed form neither
      begins nor ends with any. With TrimPadding, that makes it the only such part. */
  lemma TrimSpaceMeans(s: string) returns (pre: string, post: string)
    ensures s == pre + TrimSpace(s) + post && forall c :: c in pre + post ==> IsSpace(c)
    ensures var r := TrimSpace(s); r != [] ==> !IsSpace(r[0]) && !IsSpace(r[|r| - 1])
  {
    pre := TrimLeftMeans(s);
    post := TrimRightMeans(TrimLeft(s));
  }

  /** The characters with the property White_Space, one by one. */
  lemma SpacesAre(c: char)
    ensures IsSpace(c) <==>
            c as int in {0x09, 0x0A, 0x0B, 0x0C, 0x0D, 0x20, 0x85, 0xA0, 0x1680,
                         0x2000, 0x2001, 0x2002, 0x2003, 0x2004, 0x2005, 0x2006, 0x2007, 0x2008, 0x2009, 0x200A,
                         0x2028, 0x2029, 0x202F, 0x205F, 0x3000}
  {
  }

  // --------------------------------------------------------------- the JSON document

  /** The fields of the document: a number and two strings, either of which may be omitted. */
  datatype Fields = Fields(highWater: string, checkpoint: string, signature: string)

  /** The literal text that introduces each field. */
  datatype Keys = Keys(open: string, checkpoint: string, signature: string) {
    /** What tells the fields apart: no key begins like a number or like the other key. */
    predicate Distinct() {
      && open != [] && open[0] == '{'
      && |checkpoint| > 2 && |signature| > 2
      && !IsDigit(checkpoint[0]) && !IsDigit(signature[0])
      && checkpoint[2] != signature[2]
    }
  }

  const KEYS := Keys("{\"high_water\":", ",\"checkpoint\":\"", ",\"signature\":\"")

  /** A string field is left out altogether when empty. */
  function StringField(key: string, value: string): string {
    if value == [] then [] else key + value + "\""
  }

  /** What follows the number. */
  function Tail(keys: Keys, f: Fields): string {
    StringField(keys.checkpoint, f.checkpoint) + (StringField(keys.signature, f.signature) + "}")
  }

  function Marshal(keys: Keys, f: Fields): string {
    keys.open + (f.highWater + Tail(keys, f))
  }

  function DigitRun(s: string): (k: nat)
    ensures k <= |s|
  {
    if s != [] && IsDigit(s[0]) then 1 + DigitRun(s[1..]) else 0
  }

  function QuoteAt(s: string): (k: nat)
    ensures k <= |s|
    ensures k < |s| ==> s[k] == '"'
  {
    if s == [] || s[0] == '"' then 0 else 1 + QuoteAt(s[1..])
  }

  /** The value of an optional string field at the head of `s`, and what follows it. */
  function TakeField(key: string, s: string): (string, string) {
    if key <= s && QuoteAt(s[|key|..]) < |s| - |key| then
      var k := QuoteAt(s[|key|..]);
      (s[|key|..][..k], s[|key|..][k + 1..])
    else ([], s)
  }

  /** Reads a document in the shape Marshal writes, and no other. */
  function Unmarshal(keys: Keys, raw: string): Option<Fields> {
    if keys.open <= raw then UnmarshalBody(keys, raw[|keys.open|..]) else None
  }

  function UnmarshalBody(keys: Keys, s: string): Option<Fields> {
    var k := DigitRun(s);
    var first := TakeField(keys.checkpoint, s[k..]);
    var second := TakeField(keys.signature, first.1);
    if k == 0 || (k > 1 && s[0] == '0') || second.1 != "}" || !Plain(first.0) || !Plain(second.0) then None
    else Some(Fields(s[..k], first.0, second.0))
  }

  lemma {:induction false} DigitRunOf(d: string, rest: string)
    requires forall c :: c in d ==> IsDigit(c)
    requires rest != [] && !IsDigit(rest[0])
    ensures DigitRun(d + rest) == |d|
  {
    if d == [] {
      assert d + rest == rest;
    } else {
      assert (d + rest)[1..] == d[1..] + rest;
      DigitRunOf(d[1..], rest);
    }
  }

  lemma {:induction false} QuoteAtOf(v: string, rest: string)
    requires '"' !in v && rest != [] && rest[0] == '"'
    ensures QuoteAt(v + rest) == |v|
  {
    if v == [] {
      assert v + rest == rest;
    } else {
      assert (v + rest)[1..] == v[1..] + rest;
      QuoteAtOf(v[1..], rest);
    }
  }

  /** The text of an optional string field: key, value and quote, or nothing. */
  predicate FieldText(t: string, key: string, value: string) {
    t == key + value + "\"" || (t == [] && value == [])
  }

  lemma TakeFieldText(key: string, t: string, value: string, rest: string)
    requires FieldText(t, key, value) && '"' !in value
    requires t == [] ==> !(key <= rest)
    ensures TakeField(key, t + rest) == (value, rest)
  {
    var s := t + rest;
    if t == [] {
      assert s == rest;
    } else {
      assert s[|key|..] == value + ("\"" + rest);
      QuoteAtOf(value, "\"" + rest);
      assert s[..|key|] == key;
    }
  }

  lemma TakeFieldSound(key: string, s: string) returns (t: string)
    ensures s == t + TakeField(key, s).1 && FieldText(t, key, TakeField(key, s).0)
  {
    if key <= s && QuoteAt(s[|key|..]) < |s| - |key| {
      var k := QuoteAt(s[|key|..]);
      t := key + s[|key|..][..k] + "\"";
      assert s == key + (s[|key|..][..k] + "\"" + s[|key|..][k + 1..]);
    } else {
      t := [];
    }
  }

  /** The shape of the guard's own documents, with `t` and `u` for the two string fields. */
  predicate Shaped(keys: Keys, raw: string, f: Fields, t: string, u: string) {
    && f.highWater != [] && (forall c :: c in f.highWater ==> IsDigit(c)) && (|f.highWater| > 1 ==> f.highWater[0] != '0')
    && Plain(f.checkpoint) && Plain(f.signature)
    && FieldText(t, keys.checkpoint, f.checkpoint) && FieldText(u, keys.signature, f.signature)
    && raw == keys.open + (f.highWater + (t + (u + "}")))
  }

  ghost predicate OwnShape(keys: Keys, raw: string, f: Fields) {
    exists t, u :: Shaped(keys, raw, f, t, u)
  }

  lemma TailTaken(keys: Keys, f: Fields, t: string, u: string)
    requires keys.Distinct() && Plain(f.checkpoint) && Plain(f.signature)
    requires FieldText(t, keys.checkpoint, f.checkpoint) && FieldText(u, keys.signature, f.signature)
    ensures TakeField(keys.checkpoint, t + (u + "}")) == (f.checkpoint, u + "}")
    ensures TakeField(keys.signature, u + "}") == (f.signature, "}")
    ensures t + (u + "}") != [] && !IsDigit((t + (u + "}"))[0])
  {
    assert u != [] ==> (u + "}")[2] == keys.signature[2];
    TakeFieldText(keys.checkpoint, t, f.checkpoint, u + "}");
    TakeFieldText(keys.signature, u, f.signature, "}");
  }

  lemma ShapedReads(keys: Keys, raw: string, f: Fields, t: string, u: string)
    requires keys.Distinct() && Shaped(keys, raw, f, t, u)
    ensures Unmarshal(keys, raw) == Some(f)
  {
    TailTaken(keys, f, t, u);
    var tail := t + (u + "}");
    assert raw[|keys.open|..] == f.highWater + tail;
    BodyReads(keys, f, tail);
  }

  lemma BodyReads(keys: Keys, f: Fields, tail: string)
    requires f.highWater != [] && (forall c :: c in f.highWater ==> IsDigit(c)) && (|f.highWater| > 1 ==> f.highWater[0] != '0')
    requires Plain(f.checkpoint) && Plain(f.signature) && tail != [] && !IsDigit(tail[0])
    requires TakeField(keys.checkpoint, tail).0 == f.checkpoint
    requires TakeField(keys.signature, TakeField(keys.checkpoint, tail).1) == (f.signature, "}")
    ensures UnmarshalBody(keys, f.highWater + tail) == Some(f)
  {
    var body := f.highWater + tail;
    DigitRunOf(f.highWater, tail);
    assert body[|f.highWater|..] == tail && body[..|f.highWater|] == f.highWater && body[0] == f.highWater[0];
  }

  lemma {:induction false} DigitRunDigits(s: string)
    ensures forall c :: c in s[..DigitRun(s)] ==> IsDigit(c)
  {
    if s != [] && IsDigit(s[0]) {
      DigitRunDigits(s[1..]);
      assert s[..DigitRun(s)] == [s[0]] + s[1..][..DigitRun(s[1..])];
    }
  }

  lemma Glue(s: string, k: nat, t: string, rest: string, u: string)
    requires k <= |s| && s[k..] == t + rest && rest == u + "}"
    ensures s == s[..k] + (t + (u + "}"))
  {
    assert s == s[..k] + s[k..];
  }

  lemma BodyShaped(keys: Keys, s: string, f: Fields) returns (t: string, u: string)
    requires UnmarshalBody(keys, s) == Some(f)
    ensures FieldText(t, keys.checkpoint, f.checkpoint) && FieldText(u, keys.signature, f.signature)
    ensures s == f.highWater + (t + (u + "}"))
  {
    var k := DigitRun(s);
    var first := TakeField(keys.checkpoint, s[k..]);
    t := TakeFieldSound(keys.checkpoint, s[k..]);
    u := TakeFieldSound(keys.signature, first.1);
    Glue(s, k, t, first.1, u);
  }

  lemma BodyNumber(keys: Keys, s: string, f: Fields)
    requires UnmarshalBody(keys, s) == Some(f)
    ensures f.highWater != [] && (forall c :: c in f.highWater ==> IsDigit(c)) && (|f.highWater| > 1 ==> f.highWater[0] != '0')
    ensures Plain(f.checkpoint) && Plain(f.signature)
  {
    DigitRunDigits(s);
    assert f.highWater[0] == s[0];
  }

  lemma ReadsShaped(keys: Keys, raw: string, f: Fields) returns (t: string, u: string)
    requires Unmarshal(keys, raw) == Some(f)
    ensures Shaped(keys, raw, f, t, u)
  {
    var s := raw[|keys.open|..];
    BodyNumber(keys, s, f);
    t, u := BodyShaped(keys, s, f);
    OpensWith(raw, keys.open);
    assert raw == keys.open + (f.highWater + (t + (u + "}")));
  }

  lemma OpensWith(raw: string, open: string)
    requires open <= raw
    ensures raw == open + raw[|open|..]
  {
  }

  /** The reader takes exactly the documents in the guard's own shape. */
  lemma UnmarshalIff(keys: Keys, raw: string, f: Fields)
    requires keys.Distinct()
    ensures Unmarshal(keys, raw) == Some(f) <==> OwnShape(keys, raw, f)
  {
    if Unmarshal(keys, raw) == Some(f) {
      var t, u := ReadsShaped(keys, raw, f);
    }
    if OwnShape(keys, raw, f) {
      var t, u :| Shaped(keys, raw, f, t, u);
      ShapedReads(keys, raw, f, t, u);
    }
  }

  lemma TrimMarshal(keys: Keys, f: Fields)
    requires keys.Distinct()
    ensures Marshal(keys, f)[0] == '{'
    ensures TrimSpace(Marshal(keys, f)) == Marshal(keys, f)
  {
    var raw := Marshal(keys, f);
    assert Tail(keys, f)[|Tail(keys, f)| - 1] == '}';
    assert raw[|raw| - 1] == Tail(keys, f)[|Tail(keys, f)| - 1];
    TrimPadding([], raw, []);
    assert [] + raw + [] == raw;
  }

  /** Plain field values and a canonical number survive the document. */
  lemma DocumentRoundTrip(keys: Keys, f: Fields)
    requires keys.Distinct()
    requires f.highWater != [] && (forall c :: c in f.highWater ==> IsDigit(c))
    requires |f.highWater| > 1 ==> f.highWater[0] != '0'
    requires Plain(f.checkpoint) && Plain(f.signature)
    ensures Unmarshal(keys, Marshal(keys, f)) == Some(f)
  {
    ShapedReads(keys, Marshal(keys, f), f, StringField(keys.checkpoint, f.checkpoint), StringField(keys.signature, f.signature));
  }

  // ------------------------------------------------------------------ the guard's file

  function FieldsOf(g: Guard): Fields {
    match g.memo
    case None => Fields(Decimal(g.mark), [], [])
    case Some(m) => Fields(Decimal(g.mark), EncodeHex(m.checkpoint), EncodeHex(m.signature))
  }

  /** The document the guard writes for its current state. */
  function Render(g: Guard): string { Marshal(KEYS, FieldsOf(g)) }

  /** The guard state a file's content stands for. */
  function Load(json: Json, data: string): (r: Loaded)
    ensures r.Ok? ==> r.guard.WellFormed()
  {
    var raw := TrimSpace(data);
    if raw != [] && raw[0] == '{' then
      match Unmarshal(KEYS, raw)
      case Some(f) => LoadFields(f)
      case None =>
        match json(raw)
        case Some(doc) => LoadDocument(doc)
        case None => Corrupt
    else
      match ParseUint(raw)
      case None => Corrupt
      case Some(v) => Ok(Guard(v, None))
  }

  function LoadFields(f: Fields): (r: Loaded)
    ensures r.Ok? ==> r.guard.WellFormed()
  {
    match ParseUint(f.highWater)
    case Some(v) => LoadDocument(Document(v, f.checkpoint, f.signature))
    case None => Corrupt
  }

  function LoadDocument(doc: Document): (r: Loaded)
    ensures r.Ok? ==> r.guard.WellFormed() && r.guard.mark == doc.mark
  {
    match (DecodeOptionalHex(doc.checkpoint, 32), DecodeOptionalHex(doc.signature, 64))
    case (Some(Some(checkpoint)), Some(Some(signature))) => Ok(Guard(doc.mark, Some(Memo(checkpoint, signature))))
    case (Some(_), Some(_)) => Ok(Guard(doc.mark, None))
    case _ => Corrupt
  }

  lemma ParseDecimal(n: nat)
    ensures ParseUint(Decimal(n)) == if n < TWO64 then Some(n) else None
  {
    DecimalRoundTrip(n);
  }

  lemma DocumentLoads(json: Json, f: Fields)
    requires f.highWater != [] && (forall c :: c in f.highWater ==> IsDigit(c))
    requires |f.highWater| > 1 ==> f.highWater[0] != '0'
    requires Plain(f.checkpoint) && Plain(f.signature)
    ensures Load(json, Marshal(KEYS, f)) == LoadFields(f)
  {
    TrimMarshal(KEYS, f);
    DocumentRoundTrip(KEYS, f);
  }

  lemma OptionalHexOf(b: bytes, want: nat)
    requires want > 0
    ensures DecodeOptionalHex(EncodeHex(b), want)
            == if b == [] then Some(None) else if |b| == want then Some(Some(b)) else None
  {
    HexRoundTrip(b);
  }

  /** What a document with any mark and any two byte strings loads as. A mark beyond 64 bits or
      a half of the wrong length is an error; a missing half drops the memo and keeps the mark;
      only two full halves make a memo. */
  lemma DocumentMeaning(json: Json, n: nat, checkpoint: bytes, signature: bytes)
    ensures Load(json, Marshal(KEYS, Fields(Decimal(n), EncodeHex(checkpoint), EncodeHex(signature))))
            == if n >= TWO64 || |checkpoint| !in {0, 32} || |signature| !in {0, 64} then Corrupt
               else if checkpoint == [] || signature == [] then Ok(Guard(n, None))
               else Ok(Guard(n, Some(Memo(checkpoint, signature))))
  {
    ParseDecimal(n);
    DecimalRoundTrip(n);
    HexRoundTrip(checkpoint);
    HexRoundTrip(signature);
    OptionalHexOf(checkpoint, 32);
    OptionalHexOf(signature, 64);
    DocumentLoads(json, Fields(Decimal(n), EncodeHex(checkpoint), EncodeHex(signature)));
  }

  /** Every state the handler can persist reloads, without error, to the same state. */
  lemma RenderRoundTrip(json: Json, g: Guard)
    requires g.WellFormed()
    ensures Load(json, Render(g)) == Ok(g)
  {
    match g.memo
    case None => DocumentMeaning(json, g.mark, [], []);
    case Some(m) => DocumentMeaning(json, g.mark, m.checkpoint, m.signature);
  }

  /** A legacy file, a bare decimal with any white space around it, loads as that mark with no
      memo, exactly when the number fits in 64 bits. */
  lemma LegacyMeaning(json: Json, n: nat, pre: string, post: string)
    requires forall c :: c in pre + post ==> IsSpace(c)
    ensures Load(json, pre + Decimal(n) + post) == if n < TWO64 then Ok(Guard(n, None)) else Corrupt
  {
    ParseDecimal(n);
    var d := Decimal(n);
    assert IsDigit(d[0]) && IsDigit(d[|d| - 1]);
    TrimPadding(pre, d, post);
  }

  /** The text itself: the field names and their order, and no memo fields without a memo. */
  lemma RenderText(g: Guard)
    requires g.WellFormed()
    ensures g.memo.None? ==> Render(g) == "{\"high_water\":" + Decimal(g.mark) + "}"
    ensures g.memo.Some? ==>
              Render(g) == "{\"high_water\":" + Decimal(g.mark)
                           + ",\"checkpoint\":\"" + EncodeHex(g.memo.value.checkpoint) + "\""
                           + ",\"signature\":\"" + EncodeHex(g.memo.value.signature) + "\"}"
  {
    if g.memo.Some? {
      HexRoundTrip(g.memo.value.checkpoint);
      HexRoundTrip(g.memo.value.signature);
      TextOf(KEYS, FieldsOf(g));
    } else {
      assert Tail(KEYS, FieldsOf(g)) == "}";
    }
  }

  lemma TextOf(keys: Keys, f: Fields)
    requires f.checkpoint != [] && f.signature != []
    ensures Marshal(keys, f)
            == keys.open + f.highWater + keys.checkpoint + f.checkpoint + "\"" + keys.signature + f.signature + "\"}"
  {
  }

  // ------------------------------------------------- what a text means, without a parser

  /** A half of the memo as text: absent, or hex digits for exactly `want` bytes. */
  predicate HalfOk(h: string, want: nat) {
    h == [] || (|h| == 2 * want && HexText(h))
  }

  predicate HexText(s: string) {
    forall c :: c in s ==> c in "0123456789abcdefABCDEF"
  }

  /** A document stands for its mark, and for a memo exactly if both halves are present. */
  predicate DocumentMeans(doc: Document, g: Guard) {
    && HalfOk(doc.checkpoint, 32) && HalfOk(doc.signature, 64) && g.mark == doc.mark
    && if doc.checkpoint == [] || doc.signature == [] then g.memo == None
       else
         && g.memo.Some?
         && EncodeHex(g.memo.value.checkpoint) == Lower(doc.checkpoint)
         && EncodeHex(g.memo.value.signature) == Lower(doc.signature)
  }

  /** The document a text holds: the guard's own shape, or else what the JSON library says. */
  ghost predicate Holds(keys: Keys, json: Json, raw: string, doc: Document) {
    if exists f :: OwnShape(keys, raw, f) then
      exists f :: OwnShape(keys, raw, f) && FieldsAre(f, doc)
    else json(raw) == Some(doc)
  }

  predicate FieldsAre(f: Fields, doc: Document) {
    && (forall c :: c in f.highWater ==> IsDigit(c)) && DecimalValue(f.highWater) == doc.mark
    && f.checkpoint == doc.checkpoint && f.signature == doc.signature
  }

  /** The state a file's text stands for. A text that does not begin with a brace stands for
      one only if it is a number below 2^64. */
  ghost predicate Means(json: Json, data: string, g: Guard) {
    var raw := TrimSpace(data);
    if raw == [] || raw[0] != '{' then
      raw != [] && (forall c :: c in raw ==> '0' <= c <= '9') && DecimalValue(raw) == g.mark && g.memo == None
    else exists doc :: Holds(KEYS, json, raw, doc) && DocumentMeans(doc, g)
  }

  lemma HexCharIff(c: char)
    ensures HexValue(c).Some? <==> c in "0123456789abcdefABCDEF"
  {
    var all := "0123456789abcdefABCDEF";
    if '0' <= c <= '9' {
      assert all[c as int - '0' as int] == c;
    } else if 'a' <= c <= 'f' {
      assert all[c as int - 'a' as int + 10] == c;
    } else if 'A' <= c <= 'F' {
      assert all[c as int - 'A' as int + 16] == c;
    }
  }

  lemma {:induction false} DecodeHexSome(s: string)
    ensures DecodeHex(s).Some? <==> |s| % 2 == 0 && forall c :: c in s ==> HexValue(c).Some?
    ensures DecodeHex(s).Some? ==> 2 * |DecodeHex(s).value| == |s|
  {
    if |s| >= 2 {
      DecodeHexStep(s);
      DecodeHexSome(s[2..]);
      assert s == [s[0], s[1]] + s[2..];
    }
  }

  lemma HexTextIff(s: string)
    ensures HexText(s) <==> forall c :: c in s ==> HexValue(c).Some?
  {
    forall c | c in s ensures HexValue(c).Some? <==> c in "0123456789abcdefABCDEF" {
      HexCharIff(c);
    }
  }

  lemma HalfIff(h: string, want: nat)
    requires want > 0
    ensures DecodeOptionalHex(h, want).Some? <==> HalfOk(h, want)
  {
    DecodeHexSome(h);
    HexTextIff(h);
  }

  lemma OptionalHexIff(h: string, want: nat, r: Option<bytes>)
    requires want > 0
    ensures DecodeOptionalHex(h, want).Some? <==> HalfOk(h, want)
    ensures DecodeOptionalHex(h, want) == Some(r) <==>
            HalfOk(h, want) && if h == [] then r == None else r.Some? && EncodeHex(r.value) == Lower(h)
  {
    HalfIff(h, want);
    if r.Some? {
      DecodeHexIff(h, r.value);
    }
  }

  lemma DocumentIff(doc: Document, g: Guard)
    ensures LoadDocument(doc) == Ok(g) <==> DocumentMeans(doc, g)
  {
    var c, s := DecodeOptionalHex(doc.checkpoint, 32), DecodeOptionalHex(doc.signature, 64);
    OptionalHexIff(doc.checkpoint, 32, if c.Some? then c.value else None);
    OptionalHexIff(doc.signature, 64, if s.Some? then s.value else None);
    if g.memo.Some? {
      OptionalHexIff(doc.checkpoint, 32, Some(g.memo.value.checkpoint));
      OptionalHexIff(doc.signature, 64, Some(g.memo.value.signature));
    }
    OptionalHexIff(doc.checkpoint, 32, None);
    OptionalHexIff(doc.signature, 64, None);
  }

  /** A text in the guard's own shape holds exactly the document of its fields. */
  lemma OwnIff(keys: Keys, json: Json, raw: string, f: Fields, doc: Document)
    requires keys.Distinct() && Unmarshal(keys, raw) == Some(f)
    ensures Holds(keys, json, raw, doc) <==> FieldsAre(f, doc)
  {
    OwnUnique(keys, raw, f);
    assert OwnShape(keys, raw, f);
  }

  lemma OwnUnique(keys: Keys, raw: string, f: Fields)
    requires keys.Distinct() && Unmarshal(keys, raw) == Some(f)
    ensures forall e :: OwnShape(keys, raw, e) <==> e == f
  {
    forall e ensures OwnShape(keys, raw, e) <==> e == f {
      UnmarshalIff(keys, raw, e);
    }
  }

  /** And any other holds what the JSON library decodes. */
  lemma NotOwn(keys: Keys, json: Json, raw: string, doc: Document)
    requires keys.Distinct() && Unmarshal(keys, raw) == None
    ensures Holds(keys, json, raw, doc) <==> json(raw) == Some(doc)
  {
    forall f ensures !OwnShape(keys, raw, f) {
      UnmarshalIff(keys, raw, f);
    }
  }

  lemma HoldsIff(keys: Keys, json: Json, raw: string, g: Guard)
    requires keys.Distinct()
    ensures (match Unmarshal(keys, raw)
             case Some(f) => LoadFields(f) == Ok(g)
             case None => json(raw).Some? && LoadDocument(json(raw).value) == Ok(g))
            <==> exists doc :: Holds(keys, json, raw, doc) && DocumentMeans(doc, g)
  {
    match Unmarshal(keys, raw)
    case Some(f) =>
      var _, _ := ReadsShaped(keys, raw, f);
      forall doc ensures Holds(keys, json, raw, doc) <==> FieldsAre(f, doc) {
        OwnIff(keys, json, raw, f, doc);
      }
      FieldsIff(f, g);
    case None =>
      forall doc ensures Holds(keys, json, raw, doc) <==> json(raw) == Some(doc) {
        NotOwn(keys, json, raw, doc);
      }
      if json(raw).Some? {
        DocumentIff(json(raw).value, g);
        assert Holds(keys, json, raw, json(raw).value);
      }
  }

  lemma FieldsIff(f: Fields, g: Guard)
    requires f.highWater != [] && forall c :: c in f.highWater ==> IsDigit(c)
    ensures LoadFields(f) == Ok(g) <==> exists doc :: FieldsAre(f, doc) && DocumentMeans(doc, g)
  {
    if DecimalValue(f.highWater) < TWO64 {
      var doc := Document(DecimalValue(f.highWater), f.checkpoint, f.signature);
      assert FieldsAre(f, doc);
      DocumentIff(doc, g);
      assert forall d :: FieldsAre(f, d) ==> d == doc;
    }
  }

  /** The loader, on every text: it succeeds exactly with the state the text stands for, and
      reports an error exactly if the text stands for none. */
  lemma LoadIff(json: Json, data: string, g: Guard)
    ensures Load(json, data) == Ok(g) <==> Means(json, data, g)
  {
    var raw := TrimSpace(data);
    if raw != [] && raw[0] == '{' {
      HoldsIff(KEYS, json, raw, g);
    }
  }
}
