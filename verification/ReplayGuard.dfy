/**
 The replay guard as an object over a text file, and the relation between the file's text
 and the guard state it loads as.
 */
module ReplayGuard {
  import opened Bytes
  import opened GuardFile
  import opened Disk
  import opened GuardSpec
  import opened AtomicFile

  function Read(json: Json, img: Image): (r: Loaded)
    ensures r.Ok? ==> r.guard.WellFormed()
  {
    match img
    case None => Ok(Guard(0, None))
    case Some(data) => Load(json, data)
  }

  /** The state a content stands for: nothing signed for an absent file, and otherwise what its
      text means. */
  ghost predicate Stands(json: Json, img: Image, g: Guard) {
    match img
    case None => g == Guard(0, None)
    case Some(data) => Means(json, data, g)
  }

  /** Reading succeeds exactly if the content stands for a state, and gives that one. */
  lemma ReadIff(json: Json, img: Image)
    ensures forall g :: Read(json, img) == Ok(g) <==> Stands(json, img, g)
    ensures Read(json, img).Ok? <==> exists g :: Stands(json, img, g)
  {
    if img.Some? {
      forall g ensures Read(json, img) == Ok(g) <==> Stands(json, img, g) {
        LoadIff(json, img.value, g);
      }
    }
    if Read(json, img).Ok? {
      assert Stands(json, img, Read(json, img).guard);
    }
  }

  /** No content the file may have would stop the guard from starting. */
  ghost predicate Readable(json: Json, d: Disk<Image>) {
    forall x :: x in d.durable ==> Read(json, x).Ok?
  }

  /** The state a content loads as; a content that does not load stands for nothing signed. */
  function StateOf(json: Json): Image -> Guard {
    img => if Read(json, img).Ok? then Read(json, img).guard else Guard(0, None)
  }

  /** The disk with every content replaced by its image under f. */
  function MapDisk<A, B>(f: A -> B, d: Disk<A>): Disk<B> {
    Disk(f(d.visible), set x | x in d.durable :: f(x))
  }

  lemma MapWrite<A, B>(f: A -> B, d: Disk<A>, x: A, fate: Fate)
    ensures MapDisk(f, Write(d, x, fate)) == Write(MapDisk(f, d), f(x), fate)
  {
    assert MapDisk(f, Renamed(d, x)).durable == MapDisk(f, d).durable + {f(x)};
  }

  /** The disk with every content replaced by the state it loads as. */
  function Decoded(json: Json, d: Disk<Image>): Disk<Guard> {
    MapDisk(StateOf(json), d)
  }

  /** Replacing the text by a rendered state is replacing the state. */
  lemma WriteDecodes(json: Json, d: Disk<Image>, g: Guard, fate: Fate)
    requires g.WellFormed()
    ensures Decoded(json, Write(d, Some(Render(g)), fate)) == Write(Decoded(json, d), g, fate)
  {
    RenderRoundTrip(json, g);
    MapWrite(StateOf(json), d, Some(Render(g)), fate);
  }

  lemma DiskAfter(json: Json, d: Disk<Image>, after: Disk<Image>, g: Guard, fate: Fate)
    requires g.WellFormed() && after == Write(d, Some(Render(g)), fate)
    ensures Decoded(json, after) == Write(Decoded(json, d), g, fate)
  {
    WriteDecodes(json, d, g, fate);
  }

  /** Whatever a crash leaves behind in any of these states loads. */
  ghost predicate AllReadable(json: Json, states: seq<Fs>) {
    forall s :: s in states ==> Readable(json, Abs(s))
  }

  lemma SafeIsReadable(json: Json, states: seq<Fs>, d: Disk<Image>, g: Guard)
    requires AllSafe(states, d.durable + {Some(Render(g))}) && Readable(json, d) && g.WellFormed()
    ensures AllReadable(json, states) && (states != [] ==> Readable(json, Abs(Last(states))))
  {
    RenderRoundTrip(json, g);
    forall s | s in states ensures Readable(json, Abs(s)) {
      assert Safe(s, d.durable + {Some(Render(g))});
    }
    assert states != [] ==> Last(states) in states;
  }

  lemma ReadableThroughout(json: Json, before: Fs, after: Fs, was: seq<Fs>, now: seq<Fs>, g: Guard, ino: nat, fault: Fault)
    requires WroteSafely(before, after, was, now, Replace, Render(g), ino, fault)
    requires Readable(json, Abs(before)) && g.WellFormed()
    ensures AllReadable(json, WriterStates(before, Replace, Render(g), ino, fault)) && Readable(json, Abs(after))
  {
    SafeIsReadable(json, WriterStates(before, Replace, Render(g), ino, fault), Abs(before), g);
  }

  class CheckpointReplayGuard {
    const json: Json
    /** Null when no state path is configured: the guard then lives in memory only. */
    const file: FileSystem?
    var highWater: uint64
    var loaded: bool
    var signedCheckpoint: Option<bytes>
    var signedSignature: Option<bytes>

    ghost predicate Valid()
      reads this, file
    {
      && loaded
      && (signedCheckpoint.Some? <==> signedSignature.Some?)
      && State().WellFormed()
      && (file != null ==> Healthy(file.fs))
    }

    ghost function State(): Guard
      reads this
    {
      if signedCheckpoint.Some? && signedSignature.Some? then
        Guard(highWater, Some(Memo(signedCheckpoint.value, signedSignature.value)))
      else Guard(highWater, None)
    }

    /** The guard states the file stands for; without a file, writes always take. */
    ghost function OnDisk(): Disk<Guard>
      reads this, file
    {
      if file == null then Disk(State(), {State()}) else Decoded(json, Abs(file.fs))
    }

    /** A restart on whatever the file may hold would succeed. */
    ghost predicate Restartable()
      reads this, file
    {
      file != null ==> Readable(json, Abs(file.fs))
    }

    /** How a write fares. */
    function WriteFate(fault: Fault): Fate {
      if file == null then Succeeds else FateOf(fault)
    }

    constructor (json: Json, file: FileSystem?, g: Guard)
      requires g.WellFormed() && (file != null ==> Healthy(file.fs))
      ensures Valid() && State() == g && this.json == json && this.file == file
    {
      this.json, this.file := json, file;
      highWater, loaded := g.mark, true;
      signedCheckpoint := if g.memo.Some? then Some(g.memo.value.checkpoint) else None;
      signedSignature := if g.memo.Some? then Some(g.memo.value.signature) else None;
    }

    /** newCheckpointReplayGuard: a file that is absent starts at zero; one that does not
        load, or cannot be read, stops the start. */
    static method Open(json: Json, file: FileSystem?, readError: bool) returns (g: CheckpointReplayGuard?)
      requires file != null ==> Healthy(file.fs)
      ensures g != null <==> file == null || (!readError && exists st :: Stands(json, Abs(file.fs).visible, st))
      ensures g != null ==> fresh(g) && g.Valid() && g.json == json && g.file == file
      ensures g != null && file == null ==> g.State() == Guard(0, None)
      ensures g != null && file != null ==> Stands(json, Abs(file.fs).visible, g.State())
      ensures file != null && Entry(file.fs).None? && !readError ==> g != null && g.State() == Guard(0, None)
      ensures g != null ==> g.OnDisk().visible == g.State()
    {
      g := null;
      if file != null {
        ReadIff(json, Abs(file.fs).visible);
      }
      if file == null {
        g := new CheckpointReplayGuard(json, null, Guard(0, None));
      } else if !readError && Read(json, Abs(file.fs).visible).Ok? {
        g := new CheckpointReplayGuard(json, file, Read(json, Abs(file.fs).visible).guard);
      }
    }

    /** json.Marshal of the current state. */
    method StateText() returns (text: string)
      requires Valid()
      ensures text == Render(State())
    {
      var fields :=
        if signedCheckpoint.Some? && signedSignature.Some? then
          Fields(Decimal(highWater), EncodeHex(signedCheckpoint.value), EncodeHex(signedSignature.value))
        else Fields(Decimal(highWater), [], []);
      assert fields == FieldsOf(State());
      text := Marshal(KEYS, fields);
    }

    method Save(text: string, ino: nat, fault: Fault) returns (ok: bool)
      requires Valid() && file != null && ino !in file.fs.inodes
      modifies file
      ensures Valid() && (ok <==> FateOf(fault).Succeeds?)
      ensures Abs(file.fs) == Write(old(Abs(file.fs)), Some(text), FateOf(fault))
      ensures WroteSafely(old(file.fs), file.fs, old(file.history), file.history, Replace, text, ino, fault)
      ensures file.fs.inodes.Keys <= old(file.fs.inodes.Keys) + {ino}
    {
      ok := file.WriteBytesAtomic(text, ino, fault);
    }

    /** The write replaces the state on disk as far as its fate takes it. If whatever was on
        disk would load, then so would whatever a crash leaves behind between any two of its
        system calls. */
    method PersistLocked(ino: nat, fault: Fault) returns (ok: bool)
      requires Valid() && file != null && ino !in file.fs.inodes
      modifies file
      ensures Valid() && (ok <==> FateOf(fault).Succeeds?)
      ensures OnDisk() == Write(old(OnDisk()), State(), FateOf(fault))
      ensures WroteSafely(old(file.fs), file.fs, old(file.history), file.history, Replace, Render(State()), ino, fault)
      ensures old(Restartable()) ==>
                AllReadable(json, WriterStates(old(file.fs), Replace, Render(State()), ino, fault)) && Restartable()
      ensures file.fs.inodes.Keys <= old(file.fs.inodes.Keys) + {ino}
    {
      ghost var before, was := file.fs, file.history;
      var text := StateText();
      ok := Save(text, ino, fault);
      DiskAfter(json, Abs(before), Abs(file.fs), State(), FateOf(fault));
      if Readable(json, Abs(before)) {
        ReadableThroughout(json, before, file.fs, was, file.history, State(), ino, fault);
      }
    }

    method CheckAndAdvance(ts: uint64, ino: nat, fault: Fault) returns (r: AdvanceResult)
      requires Valid() && (file != null ==> ino !in file.fs.inodes)
      modifies this, file
      ensures Valid() && (old(Restartable()) ==> Restartable())
      ensures (State(), OnDisk(), r) == Advance(old(State()), old(OnDisk()), ts, WriteFate(fault))
      ensures file != null ==> file.fs.inodes.Keys <= old(file.fs.inodes.Keys) + {ino}
    {
      if loaded && ts <= highWater {
        return AdvanceRejected;
      }
      var prevCheckpoint, prevSignature := signedCheckpoint, signedSignature;
      var prevHighWater := highWater;
      highWater := ts;
      signedCheckpoint, signedSignature := None, None;
      if file == null {
        return AdvanceOk;
      }
      assert OnDisk() == old(OnDisk());
      var ok := PersistLocked(ino, fault);
      if !ok {
        highWater := prevHighWater;
        signedCheckpoint, signedSignature := prevCheckpoint, prevSignature;
        return AdvanceUnsaved;
      }
      return AdvanceOk;
    }

    method RecordSignature(ts: uint64, checkpoint: bytes, signature: bytes, ino: nat, fault: Fault) returns (ok: bool)
      requires Valid() && (file != null ==> ino !in file.fs.inodes) && |checkpoint| == 32 && |signature| == 64
      modifies this, file
      ensures Valid() && (old(Restartable()) ==> Restartable())
      ensures (State(), OnDisk(), ok) == Record(old(State()), old(OnDisk()), ts, Memo(checkpoint, signature), WriteFate(fault))
    {
      if ts != highWater {
        return true;
      }
      signedCheckpoint, signedSignature := Some(checkpoint), Some(signature);
      if file == null {
        return true;
      }
      assert OnDisk() == old(OnDisk());
      ok := PersistLocked(ino, fault);
    }

    method CachedSignature(ts: uint64, checkpoint: bytes) returns (r: Option<bytes>)
      requires Valid()
      ensures r == Cached(State(), ts, checkpoint)
    {
      if !loaded || ts != highWater {
        return None;
      }
      if signedCheckpoint.None? || signedSignature.None? {
        return None;
      }
      if signedCheckpoint.value != checkpoint {
        return None;
      }
      return signedSignature;
    }
  }
}
