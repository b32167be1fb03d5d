/**
 The Solidity contract ABI, following "Formal Specification of the Encoding" of the
 Solidity Contract ABI Specification, for the types this system packs.
 */
module Abi {
  import opened Bytes

  type address = b: bytes | |b| == 20 witness Zeros(20)

  datatype Term =
    | UInt(n: nat)                 // uint256
    | Address(a: address)
    | Bytes32(w: word)
    | DynBytes(b: bytes)           // bytes, and string through its UTF-8 bytes
    | Array(elems: seq<Term>)      // T[]
    | Tuple(elems: seq<Term>)      // (T1, ..., Tk)

  predicate Dynamic(t: Term) {
    match t
    case DynBytes(_) => true
    case Array(_) => true
    case Tuple(elems) => exists e | e in elems :: Dynamic(e)
    case _ => false
  }

  function Word(n: nat): word { BigEndian(n, 32) }

  /** The number of zero bytes that fill `n` bytes up to a multiple of 32. */
  function PadLength(n: nat): nat { (32 - n % 32) % 32 }

  function PadRight(b: bytes): bytes { b + Zeros(PadLength(|b|)) }

  function PadLeft(b: bytes): (r: bytes)
    requires |b| <= 32
    ensures |r| == 32
  {
    Zeros(32 - |b|) + b
  }

  function Enc(t: Term): bytes
    decreases t, 1
  {
    match t
    case UInt(n) => Word(n)
    case Address(a) => PadLeft(a)
    case Bytes32(w) => w
    case DynBytes(b) => Word(|b|) + PadRight(b)
    case Array(elems) => Word(|elems|) + EncSeq(elems)
    case Tuple(elems) => EncSeq(elems)
  }

  /** head(X1) ... head(Xk) tail(X1) ... tail(Xk) */
  function EncSeq(elems: seq<Term>): bytes
    decreases elems, 2
  {
    Heads(elems, HeadLength(elems)) + Tails(elems)
  }

  /** A static component is its own head; a dynamic one has the offset of its tail there. */
  function HeadOf(t: Term, offset: nat): bytes
    decreases t, 2
  {
    if Dynamic(t) then Word(offset) else Enc(t)
  }

  function TailOf(t: Term): bytes
    decreases t, 2
  {
    if Dynamic(t) then Enc(t) else []
  }

  function HeadLength(elems: seq<Term>): nat
    decreases elems, 0
  {
    if elems == [] then 0 else |HeadOf(elems[0], 0)| + HeadLength(elems[1..])
  }

  function Heads(elems: seq<Term>, offset: nat): bytes
    decreases elems, 0
  {
    if elems == [] then [] else HeadOf(elems[0], offset) + Heads(elems[1..], offset + |TailOf(elems[0])|)
  }

  function Tails(elems: seq<Term>): bytes
    decreases elems, 0
  {
    if elems == [] then [] else TailOf(elems[0]) + Tails(elems[1..])
  }

  // ------------------------------------------------------------------- word layouts

  function Concat(ws: seq<word>): (r: bytes)
    ensures |r| == 32 * |ws|
  {
    if ws == [] then [] else ws[0] + Concat(ws[1..])
  }

  lemma {:induction false} ConcatAppend(ws: seq<word>, vs: seq<word>)
    ensures Concat(ws + vs) == Concat(ws) + Concat(vs)
  {
    if ws == [] {
      assert ws + vs == vs;
    } else {
      assert (ws + vs)[1..] == ws[1..] + vs;
      ConcatAppend(ws[1..], vs);
    }
  }

  lemma ConcatOne(w: word)
    ensures Concat([w]) == w
  {
    assert [w][1..] == [];
  }

  lemma ConcatTwo(w: word, v: word)
    ensures Concat([w, v]) == w + v
  {
    ConcatOne(w);
    ConcatOne(v);
    ConcatAppend([w], [v]);
    assert [w] + [v] == [w, v];
  }

  /** Equally many leading words, then anything: the words and the rest are determined. */
  lemma {:induction false} ConcatInjective(ws: seq<word>, vs: seq<word>, t: bytes, u: bytes)
    requires |ws| == |vs| && Concat(ws) + t == Concat(vs) + u
    ensures ws == vs && t == u
  {
    if ws == [] {
      assert Concat(ws) + t == t && Concat(vs) + u == u;
    } else {
      var x, y := Concat(ws) + t, Concat(vs) + u;
      assert x[..32] == ws[0] && y[..32] == vs[0];
      assert x[32..] == Concat(ws[1..]) + t && y[32..] == Concat(vs[1..]) + u;
      ConcatInjective(ws[1..], vs[1..], t, u);
      assert ws == [ws[0]] + ws[1..] && vs == [vs[0]] + vs[1..];
    }
  }

  /** Padding rounds the length up to a multiple of 32: the bytes come first, zeros follow. */
  lemma PadRightLength(b: bytes)
    ensures |PadRight(b)| == (|b| + 31) / 32 * 32
    ensures forall k :: 0 <= k < |PadRight(b)| ==> PadRight(b)[k] == if k < |b| then b[k] else 0
  {
  }

  lemma WordInjective(m: uint64, n: uint64)
    requires Word(m) == Word(n)
    ensures m == n
  {
    Uint64Fits(m);
    Uint64Fits(n);
    BigEndianInjective(m, n, 32);
  }

  /** The terms that are exactly one word. */
  predicate Simple(t: Term) { t.UInt? || t.Address? || t.Bytes32? }

  function WordOf(t: Term): word
    requires Simple(t)
  {
    Enc(t)
  }

  function WordsOf(ts: seq<Term>): seq<word>
    requires forall t :: t in ts ==> Simple(t)
  {
    seq(|ts|, i requires 0 <= i < |ts| => WordOf(ts[i]))
  }

  /** A run of one-word components lies in the head as it is and has no tail. */
  lemma {:induction false} SimpleRun(ts: seq<Term>, offset: nat)
    requires forall t :: t in ts ==> Simple(t)
    ensures Heads(ts, offset) == Concat(WordsOf(ts))
    ensures Tails(ts) == [] && HeadLength(ts) == 32 * |ts|
  {
    if ts != [] {
      SimpleRun(ts[1..], offset);
      assert WordsOf(ts)[1..] == WordsOf(ts[1..]);
      assert !Dynamic(ts[0]) && WordOf(ts[0]) == Enc(ts[0]);
    }
  }

  lemma {:induction false} TailsAppend(xs: seq<Term>, ys: seq<Term>)
    ensures Tails(xs + ys) == Tails(xs) + Tails(ys)
  {
    if xs == [] {
      assert xs + ys == ys;
    } else {
      assert (xs + ys)[1..] == xs[1..] + ys;
      TailsAppend(xs[1..], ys);
    }
  }

  lemma {:induction false} HeadLengthAppend(xs: seq<Term>, ys: seq<Term>)
    ensures HeadLength(xs + ys) == HeadLength(xs) + HeadLength(ys)
  {
    if xs == [] {
      assert xs + ys == ys;
    } else {
      assert (xs + ys)[1..] == xs[1..] + ys;
      HeadLengthAppend(xs[1..], ys);
    }
  }

  lemma {:induction false} HeadsAppend(xs: seq<Term>, ys: seq<Term>, offset: nat)
    ensures Heads(xs + ys, offset) == Heads(xs, offset) + Heads(ys, offset + |Tails(xs)|)
  {
    if xs == [] {
      assert xs + ys == ys;
    } else {
      assert (xs + ys)[1..] == xs[1..] + ys;
      HeadsAppend(xs[1..], ys, offset + |TailOf(xs[0])|);
    }
  }

  lemma SingleDynamic(t: Term, offset: nat)
    requires Dynamic(t)
    ensures HeadLength([t]) == 32 && Heads([t], offset) == Word(offset) && Tails([t]) == Enc(t)
  {
    assert [t][1..] == [];
    assert Tails([]) == [] && Heads([], offset + |Enc(t)|) == [];
    assert Enc(t) + [] == Enc(t) && Word(offset) + [] == Word(offset);
  }

  lemma TwoDynamic(s: Term, t: Term)
    requires Dynamic(s) && Dynamic(t)
    ensures Enc(Tuple([s, t])) == Concat([Word(64), Word(64 + |Enc(s)|)]) + (Enc(s) + Enc(t))
  {
    var h := 64;
    SingleDynamic(s, h);
    SingleDynamic(t, h + |Enc(s)|);
    HeadsAppend([s], [t], h);
    TailsAppend([s], [t]);
    HeadLengthAppend([s], [t]);
    ConcatTwo(Word(h), Word(h + |Enc(s)|));
    assert [s] + [t] == [s, t];
    assert Enc(Tuple([s, t])) == EncSeq([s, t]);
  }

  lemma OneDynamicHeads(xs: seq<Term>, d: Term, ys: seq<Term>, h: nat)
    requires Dynamic(d) && (forall t :: t in xs ==> Simple(t)) && (forall t :: t in ys ==> Simple(t))
    ensures Heads(xs + ([d] + ys), h) == Concat(WordsOf(xs) + ([Word(h)] + WordsOf(ys)))
  {
    SimpleRun(xs, h);
    HeadsAppend(xs, [d] + ys, h);
    DynamicThenSimple(d, ys, h);
    ConcatAppend(WordsOf(xs), [Word(h)] + WordsOf(ys));
  }

  lemma ConsWord(w: word, ws: seq<word>)
    ensures Concat([w] + ws) == w + Concat(ws)
  {
    ConcatOne(w);
    ConcatAppend([w], ws);
  }

  lemma DynamicThenSimple(d: Term, ys: seq<Term>, h: nat)
    requires Dynamic(d) && (forall t :: t in ys ==> Simple(t))
    ensures Heads([d] + ys, h) == Concat([Word(h)] + WordsOf(ys))
  {
    var heads := WordsOf(ys);
    SimpleRun(ys, h + |Tails([d])|);
    SingleDynamic(d, h);
    HeadsAppend([d], ys, h);
    ConsWord(Word(h), heads);
  }

  lemma DynamicThenSimpleTails(d: Term, ys: seq<Term>, h: nat)
    requires Dynamic(d) && (forall t :: t in ys ==> Simple(t))
    ensures Tails([d] + ys) == Enc(d) && HeadLength([d] + ys) == 32 + 32 * |ys|
  {
    SimpleRun(ys, h);
    SingleDynamic(d, h);
    TailsAppend([d], ys);
    HeadLengthAppend([d], ys);
    assert Enc(d) + [] == Enc(d);
  }

  lemma OneDynamicTails(xs: seq<Term>, d: Term, ys: seq<Term>, h: nat)
    requires Dynamic(d) && (forall t :: t in xs ==> Simple(t)) && (forall t :: t in ys ==> Simple(t))
    ensures Tails(xs + ([d] + ys)) == Enc(d)
    ensures HeadLength(xs + ([d] + ys)) == 32 * |xs| + (32 + 32 * |ys|)
  {
    SimpleRun(xs, h);
    DynamicThenSimpleTails(d, ys, h);
    TailsAppend(xs, [d] + ys);
    HeadLengthAppend(xs, [d] + ys);
    assert [] + Enc(d) == Enc(d);
  }

  /** One dynamic component among one-word ones: a head of words, one of them the offset of
      the single tail. */
  lemma OneDynamic(xs: seq<Term>, d: Term, ys: seq<Term>)
    requires Dynamic(d) && (forall t :: t in xs ==> Simple(t)) && (forall t :: t in ys ==> Simple(t))
    ensures Enc(Tuple(xs + ([d] + ys)))
            == Concat(WordsOf(xs) + ([Word(32 * (|xs| + 1 + |ys|))] + WordsOf(ys))) + Enc(d)
  {
    var ts := xs + ([d] + ys);
    OneDynamicTails(xs, d, ys, |xs|);
    assert HeadLength(ts) == 32 * (|xs| + 1 + |ys|);
    OneDynamicHeads(xs, d, ys, HeadLength(ts));
    assert Enc(Tuple(ts)) == EncSeq(ts);
  }

  lemma AllSimple(ts: seq<Term>)
    requires forall t :: t in ts ==> Simple(t)
    ensures Enc(Tuple(ts)) == Concat(WordsOf(ts))
  {
    SimpleRun(ts, HeadLength(ts));
    assert Enc(Tuple(ts)) == EncSeq(ts);
  }

  // ------------------------------------------------------------------- the decoder

  /** The i-th word of a byte string. */
  function WordAt(b: bytes, i: nat): word
    requires 32 * i + 32 <= |b|
  {
    b[32 * i..32 * i + 32]
  }

  lemma {:induction false} WordAtConcat(ws: seq<word>, t: bytes, i: nat)
    requires i < |ws|
    ensures WordAt(Concat(ws) + t, i) == ws[i]
  {
    var b := Concat(ws) + t;
    if i == 0 {
      assert b[..32] == ws[0];
    } else {
      assert b[32..] == Concat(ws[1..]) + t;
      WordAtConcat(ws[1..], t, i - 1);
      assert WordAt(b, i) == WordAt(b[32..], i - 1);
    }
  }

  /** A string that begins with the given words is these words and the rest. */
  lemma {:induction false} ConcatOfWordAt(ws: seq<word>, b: bytes)
    requires 32 * |ws| <= |b| && forall i :: 0 <= i < |ws| ==> WordAt(b, i) == ws[i]
    ensures Concat(ws) + b[32 * |ws|..] == b
  {
    if ws != [] {
      var first, last := ws[..|ws| - 1], ws[|ws| - 1];
      assert ws == first + [last];
      forall i | 0 <= i < |first| ensures WordAt(b, i) == first[i] {
        assert WordAt(b, i) == ws[i];
      }
      ConcatOfWordAt(first, b);
      ConcatAppend(first, [last]);
      ConcatOne(last);
      assert WordAt(b, |first|) == last;
      assert b[32 * |first|..] == last + b[32 * |ws|..];
    }
  }

  lemma DynLayout(c: bytes)
    ensures Enc(DynBytes(c)) == Word(|c|) + c + Zeros((32 - |c| % 32) % 32)
  {
    assert Word(|c|) + (c + Zeros(PadLength(|c|))) == Word(|c|) + c + Zeros(PadLength(|c|));
  }

  /** Reads a length-prefixed string: the length word n, then the n bytes, then nothing but
      zeros up to the next multiple of 32. */
  function DecodeDyn(b: bytes): Option<bytes> {
    if |b| < 32 then None
    else
      var n := Value(b[..32]);
      if |b| != 32 + (n + 31) / 32 * 32 || exists k :: 32 + n <= k < |b| && b[k] != 0 then None
      else Some(b[32..32 + n])
  }

  lemma DynRoundTrip(c: bytes)
    requires |c| < TWO64
    ensures DecodeDyn(Enc(DynBytes(c))) == Some(c)
  {
    var b := Enc(DynBytes(c));
    assert b[..32] == Word(|c|);
    Uint64Fits(|c|);
    ValueOfBigEndian(|c|, 32);
    PadRightLength(c);
    assert b[32..32 + |c|] == c;
  }

  /** Only encodings decode. */
  lemma DynSound(b: bytes)
    requires DecodeDyn(b).Some?
    ensures Enc(DynBytes(DecodeDyn(b).value)) == b
  {
    var c := DecodeDyn(b).value;
    BigEndianOfValue(b[..32]);
    PadRightLength(c);
    DynSplit(b, 32, 32 + |c|);
  }

  lemma DynSplit(b: bytes, i: nat, j: nat)
    requires i <= j <= |b| && forall k :: j <= k < |b| ==> b[k] == 0
    ensures b == b[..i] + (b[i..j] + Zeros(|b| - j))
  {
  }

  lemma TwoLayout(s: bytes, t: bytes)
    ensures var x := Word(|s|) + s + Zeros((32 - |s| % 32) % 32);
            var y := Word(|t|) + t + Zeros((32 - |t| % 32) % 32);
            Enc(Tuple([DynBytes(s), DynBytes(t)])) == Concat([Word(64), Word(64 + |x|)]) + (x + y)
  {
    TwoDynamic(DynBytes(s), DynBytes(t));
    DynLayout(s);
    DynLayout(t);
  }

  /** Reads two strings through their offset words. */
  function DecodeTwo(b: bytes): Option<(bytes, bytes)> {
    if |b| < 64 then None
    else
      var (first, second) := (Value(WordAt(b, 0)), Value(WordAt(b, 1)));
      if first != 64 || !(64 <= second <= |b|) then None
      else
        match (DecodeDyn(b[first..second]), DecodeDyn(b[second..]))
        case (Some(s), Some(t)) => Some((s, t))
        case _ => None
  }

  lemma WordValue(n: uint64)
    ensures Value(Word(n)) == n
  {
    Uint64Fits(n);
    ValueOfBigEndian(n, 32);
  }

  /** What the two offset words lead to. */
  lemma TwoParts(h: nat, x: bytes, y: bytes)
    requires h == 64 && h + |x| < TWO64
    ensures var b := Concat([Word(h), Word(h + |x|)]) + (x + y);
            && Value(WordAt(b, 0)) == h && Value(WordAt(b, 1)) == h + |x|
            && b[h..h + |x|] == x && b[h + |x|..] == y
  {
    var ws: seq<word> := [Word(h), Word(h + |x|)];
    WordAtConcat(ws, x + y, 0);
    WordAtConcat(ws, x + y, 1);
    WordValue(h);
    WordValue(h + |x|);
  }

  lemma ReadsTwo(b: bytes, second: nat, s: bytes, t: bytes)
    requires 64 <= second <= |b| && Value(WordAt(b, 0)) == 64 && Value(WordAt(b, 1)) == second
    requires DecodeDyn(b[64..second]) == Some(s) && DecodeDyn(b[second..]) == Some(t)
    ensures DecodeTwo(b) == Some((s, t))
  {
  }

  lemma TwoRoundTrip(s: bytes, t: bytes)
    requires |s| < TWO63 && |t| < TWO64
    ensures DecodeTwo(Enc(Tuple([DynBytes(s), DynBytes(t)]))) == Some((s, t))
  {
    var x, y := Enc(DynBytes(s)), Enc(DynBytes(t));
    TwoDynamic(DynBytes(s), DynBytes(t));
    PadRightLength(s);
    TwoParts(64, x, y);
    DynRoundTrip(s);
    DynRoundTrip(t);
    ReadsTwo(Concat([Word(64), Word(64 + |x|)]) + (x + y), 64 + |x|, s, t);
  }

  lemma FromParts(h: nat, b: bytes, second: nat)
    requires h == 64 && h <= second <= |b| && Value(WordAt(b, 0)) == h && Value(WordAt(b, 1)) == second
    ensures b == Concat([Word(h), Word(h + |b[h..second]|)]) + (b[h..second] + b[second..])
  {
    BigEndianOfValue(WordAt(b, 0));
    BigEndianOfValue(WordAt(b, 1));
    ConcatOfWordAt([Word(h), Word(second)], b);
    assert b[h..] == b[h..second] + b[second..];
  }

  lemma TwoSound(b: bytes)
    requires DecodeTwo(b).Some?
    ensures Enc(Tuple([DynBytes(DecodeTwo(b).value.0), DynBytes(DecodeTwo(b).value.1)])) == b
  {
    var s, t := DecodeTwo(b).value.0, DecodeTwo(b).value.1;
    var second := Value(WordAt(b, 1));
    TwoDynamic(DynBytes(s), DynBytes(t));
    DynSound(b[64..second]);
    DynSound(b[second..]);
    FromParts(64, b, second);
  }
}
