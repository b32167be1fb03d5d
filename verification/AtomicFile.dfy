/**
 The two atomic file writers, down to directory entries and inodes. `writeBytesAtomic`
 replaces the target by rename; `WriteNewFileAtomic` creates it by hard link and refuses to
 replace it. Any number of writers run concurrently on one target, and the machine may lose
 power between any two system calls.
 */
module AtomicFile {
  import opened Bytes
  import opened Disk

  type Content = string

  /** What a path holds: nothing, or a complete file. */
  type Image = Option<Content>

  datatype Name = Target | Temp(ino: nat)

  /** Before fsync, the content of an inode after a power loss is arbitrary. */
  datatype Inode = Inode(data: Content, synced: bool)

  /** `survivors` holds what the target's directory entry may be after a power loss. */
  datatype Fs = Fs(dir: map<Name, nat>, survivors: set<Option<nat>>, inodes: map<nat, Inode>)

  // ------------------------------------------------------------------- system calls

  function Entry(fs: Fs): Option<nat> {
    if Target in fs.dir then Some(fs.dir[Target]) else None
  }

  function CreateTemp(fs: Fs, ino: nat): Fs {
    fs.(dir := fs.dir[Temp(ino) := ino], inodes := fs.inodes[ino := Inode([], false)])
  }

  function WriteData(fs: Fs, ino: nat, data: Content): Fs {
    fs.(inodes := fs.inodes[ino := Inode(data, false)])
  }

  function Fsync(fs: Fs, ino: nat): Fs
    requires ino in fs.inodes
  {
    fs.(inodes := fs.inodes[ino := fs.inodes[ino].(synced := true)])
  }

  function Remove(fs: Fs, name: Name): Fs {
    fs.(dir := fs.dir - {name})
  }

  /** link(2): the caller has checked that the target does not exist. */
  function Link(fs: Fs, ino: nat): Fs {
    fs.(dir := fs.dir[Target := ino], survivors := fs.survivors + {Some(ino)})
  }

  function Rename(fs: Fs, ino: nat): Fs {
    Remove(Link(fs, ino), Temp(ino))
  }

  function SyncDir(fs: Fs): Fs {
    fs.(survivors := {Entry(fs)})
  }

  /** Power comes back with a surviving target entry, any temp files, and any content for
      inodes that were never flushed. */
  function LosePower(fs: Fs, entry: Option<nat>, temps: set<Name>, contents: map<nat, Content>): Fs {
    var kept := map n | n in fs.dir && n != Target && n in temps :: fs.dir[n];
    Fs(if entry.Some? then kept[Target := entry.value] else kept,
       {entry},
       map i | i in fs.inodes ::
         Inode(if fs.inodes[i].synced || i !in contents then fs.inodes[i].data else contents[i], true))
  }

  // ------------------------------------------------------------------- the writers

  datatype Kind = Replace | CreateNew

  datatype Stage = Fresh | Created | Written | Flushed | Published | Succeeded | Gone {
    predicate Final() { Succeeded? || Gone? }
    predicate HasTemp() { Created? || Written? || Flushed? }
  }

  /** `created` records that the writer created a temp file, `published` that its rename or
      link took effect. */
  datatype Writer = Writer(kind: Kind, data: Content, ino: nat, stage: Stage, created: bool, published: bool)

  datatype World = World(fs: Fs, writers: map<nat, Writer>)

  datatype Action =
    | Start(id: nat, kind: Kind, data: Content)
    | Create(id: nat, ino: nat)
    | Partial(id: nat, upTo: nat)
    | Complete(id: nat)
    | Flush(id: nat)
    | Publish(id: nat)
    | SyncParent(id: nat)
    | CloseParentFails(id: nat)
    | Fail(id: nat)
    | RemoveTemp(id: nat)
    | Crash
    | PowerLoss(entry: Option<nat>, temps: set<Name>, contents: map<nat, Content>)

  predicate Enabled(w: World, a: Action) {
    match a
    case Start(id, _, _) => id !in w.writers
    case Create(id, ino) => id in w.writers && w.writers[id].stage.Fresh? && ino !in w.fs.inodes
    case Partial(id, upTo) => id in w.writers && w.writers[id].stage.Created? && upTo <= |w.writers[id].data|
    case Complete(id) => id in w.writers && w.writers[id].stage.Created?
    case Flush(id) => id in w.writers && w.writers[id].stage.Written? && w.writers[id].ino in w.fs.inodes
    case Publish(id) => id in w.writers && w.writers[id].stage.Flushed?
    case SyncParent(id) => id in w.writers && w.writers[id].stage.Published?
    case CloseParentFails(id) => id in w.writers && w.writers[id].stage.Published? && w.writers[id].kind.CreateNew?
    case Fail(id) => id in w.writers && !w.writers[id].stage.Final()
    case RemoveTemp(id) => id in w.writers && w.writers[id].stage.Final() && w.writers[id].created
    case Crash => true
    case PowerLoss(entry, _, _) => entry in w.fs.survivors
  }

  function SetStage(w: World, id: nat, s: Stage): World
    requires id in w.writers
  {
    w.(writers := w.writers[id := w.writers[id].(stage := s)])
  }

  /** Writers that had not returned are gone with the process. */
  function Killed(writers: map<nat, Writer>): map<nat, Writer> {
    map id | id in writers :: if writers[id].stage.Final() then writers[id] else writers[id].(stage := Gone)
  }

  function Next(w: World, a: Action): World
    requires Enabled(w, a)
  {
    match a
    case Start(id, kind, data) => w.(writers := w.writers[id := Writer(kind, data, 0, Fresh, false, false)])
    case Create(id, ino) =>
      w.(fs := CreateTemp(w.fs, ino), writers := w.writers[id := w.writers[id].(ino := ino, stage := Created, created := true)])
    case Partial(id, upTo) => w.(fs := WriteData(w.fs, w.writers[id].ino, w.writers[id].data[..upTo]))
    case Complete(id) => SetStage(w, id, Written).(fs := WriteData(w.fs, w.writers[id].ino, w.writers[id].data))
    case Flush(id) => SetStage(w, id, Flushed).(fs := Fsync(w.fs, w.writers[id].ino))
    case Publish(id) =>
      var r := w.writers[id];
      if r.kind.CreateNew? && Target in w.fs.dir then SetStage(w, id, Gone)
      else
        World(if r.kind.Replace? then Rename(w.fs, r.ino) else Link(w.fs, r.ino),
              w.writers[id := r.(stage := Published, published := true)])
    case SyncParent(id) => SetStage(w, id, Succeeded).(fs := SyncDir(w.fs))
    case CloseParentFails(id) => SetStage(w, id, Gone).(fs := SyncDir(w.fs))
    case Fail(id) => SetStage(w, id, Gone)
    case RemoveTemp(id) => w.(fs := Remove(w.fs, Temp(w.writers[id].ino)))
    case Crash => w.(writers := Killed(w.writers))
    case PowerLoss(entry, temps, contents) => World(LosePower(w.fs, entry, temps, contents), Killed(w.writers))
  }

  predicate ValidRun(w: World, run: seq<Action>)
    decreases |run|
  {
    run != [] ==> Enabled(w, run[0]) && ValidRun(Next(w, run[0]), run[1..])
  }

  function Run(w: World, run: seq<Action>): World
    requires ValidRun(w, run)
    decreases |run|
  {
    if run == [] then w else Run(Next(w, run[0]), run[1..])
  }

  /** A settled file system: the target is absent, or a flushed file that is on disk. */
  predicate Init(w: World) {
    && w.writers == map[]
    && w.fs.survivors == {Entry(w.fs)}
    && (Target in w.fs.dir ==> w.fs.dir[Target] in w.fs.inodes && w.fs.inodes[w.fs.dir[Target]].synced)
  }

  // -------------------------------------------------------------------- the invariant

  /** The content a directory entry leads to. */
  function ImageOf(fs: Fs, entry: Option<nat>): Image {
    if entry.None? then None
    else if entry.value in fs.inodes then Some(fs.inodes[entry.value].data)
    else None
  }

  /** An entry that survives a power loss with its content intact. */
  predicate Solid(fs: Fs, entry: Option<nat>) {
    entry.Some? ==> entry.value in fs.inodes && fs.inodes[entry.value].synced
  }

  /** The target's view as one replaceable file. */
  function Abs(fs: Fs): Disk<Image> {
    Disk(ImageOf(fs, Entry(fs)), set e | e in fs.survivors :: ImageOf(fs, e))
  }

  ghost predicate WriterOk(fs: Fs, r: Writer) {
    && (r.stage.HasTemp() ==> r.ino in fs.inodes && Some(r.ino) !in fs.survivors)
    && (r.stage.Written? || r.stage.Flushed? ==> fs.inodes[r.ino].data == r.data)
    && (r.stage.Flushed? ==> fs.inodes[r.ino].synced)
    && (r.stage.Published? || r.stage.Succeeded? ==> r.published)
    && (r.published ==> r.ino in fs.inodes && fs.inodes[r.ino] == Inode(r.data, true) && !r.stage.HasTemp() && !r.stage.Fresh?)
  }

  ghost predicate Inv(w: World) {
    && Entry(w.fs) in w.fs.survivors
    && (forall e :: e in w.fs.survivors ==> Solid(w.fs, e))
    && (forall id :: id in w.writers ==> WriterOk(w.fs, w.writers[id]))
    && (forall i, j :: i in w.writers && j in w.writers && i != j && w.writers[i].stage.HasTemp()
                       && (w.writers[j].stage.HasTemp() || w.writers[j].published)
                       ==> w.writers[i].ino != w.writers[j].ino)
    && (forall i, j :: i in w.writers && j in w.writers && i != j
                       && w.writers[i].published && w.writers[j].published
                       ==> w.writers[i].ino != w.writers[j].ino)
  }

  lemma QuietInv(w: World, a: Action)
    requires Inv(w) && Enabled(w, a) && (a.Start? || a.Fail? || a.RemoveTemp? || a.SyncParent? || a.CloseParentFails?)
    ensures Inv(Next(w, a))
  {
  }

  lemma CreateInv(w: World, a: Action)
    requires Inv(w) && Enabled(w, a) && a.Create?
    ensures Inv(Next(w, a))
  {
  }

  lemma WriteInv(w: World, a: Action)
    requires Inv(w) && Enabled(w, a) && (a.Partial? || a.Complete?)
    ensures Inv(Next(w, a))
  {
  }

  lemma FlushInv(w: World, a: Action)
    requires Inv(w) && Enabled(w, a) && a.Flush?
    ensures Inv(Next(w, a))
  {
  }

  lemma PublishInv(w: World, a: Action)
    requires Inv(w) && Enabled(w, a) && a.Publish?
    ensures Inv(Next(w, a))
  {
  }

  lemma CrashInv(w: World, a: Action)
    requires Inv(w) && Enabled(w, a) && a.Crash?
    ensures Inv(Next(w, a))
  {
  }

  lemma PowerLossInv(w: World, a: Action)
    requires Inv(w) && Enabled(w, a) && a.PowerLoss?
    ensures Inv(Next(w, a))
  {
    var w' := Next(w, a);
    assert Entry(w'.fs) == a.entry && Solid(w.fs, a.entry);
    forall id | id in w'.writers ensures WriterOk(w'.fs, w'.writers[id]) {
      assert WriterOk(w.fs, w.writers[id]);
    }
  }

  lemma StepInv(w: World, a: Action)
    requires Inv(w) && Enabled(w, a)
    ensures Inv(Next(w, a))
  {
    match a
    case Create(_, _) => CreateInv(w, a);
    case Partial(_, _) => WriteInv(w, a);
    case Complete(_) => WriteInv(w, a);
    case Flush(_) => FlushInv(w, a);
    case Publish(_) => PublishInv(w, a);
    case Crash => CrashInv(w, a);
    case PowerLoss(_, _, _) => PowerLossInv(w, a);
    case _ => QuietInv(w, a);
  }

  // --------------------------------------------------------- what the machine allows

  /** A power loss can fall anywhere. It can bring back every surviving entry, lose or keep any
      temp file, and leave anything at all in an inode that was not flushed; one that was
      flushed it leaves alone. */
  lemma PowerLossAnywhere(w: World, entry: Option<nat>, temps: set<Name>, ino: nat, garbage: Content)
    requires entry in w.fs.survivors && ino in w.fs.inodes
    ensures var a := PowerLoss(entry, temps, map[ino := garbage]);
            && Enabled(w, a) && Enabled(w, Crash)
            && var v := Next(w, a);
               && Entry(v.fs) == entry
               && v.fs.inodes[ino].data == (if w.fs.inodes[ino].synced then w.fs.inodes[ino].data else garbage)
               && (forall n :: n in w.fs.dir && n != Target ==> (n in v.fs.dir <==> n in temps))
  {
  }

  /** A rename moves the temp file's name to the target, so a crash right after it leaves no
      temp file; a link gives the file a second name and leaves the first. */
  lemma PublishNames(w: World, id: nat)
    requires Enabled(w, Publish(id)) && Next(w, Publish(id)).writers[id].stage.Published?
    ensures var r, dir := w.writers[id], Next(w, Publish(id)).fs.dir;
            && Target in dir && dir[Target] == r.ino
            && (r.kind.Replace? ==> dir.Keys == w.fs.dir.Keys - {Temp(r.ino)} + {Target})
            && (r.kind.CreateNew? ==> Target !in w.fs.dir && dir.Keys == w.fs.dir.Keys + {Target})
  {
  }

  /** The steps a writer can take in its present stage; every call may fail, and a write may
      stop after any number of bytes. */
  predicate StepsOf(w: World, id: nat, ino: nat, upTo: nat)
    requires id in w.writers
  {
    && (!w.writers[id].stage.Final() ==> Enabled(w, Fail(id)))
    && match w.writers[id].stage
       case Fresh => ino !in w.fs.inodes ==> Enabled(w, Create(id, ino))
       case Created => (upTo <= |w.writers[id].data| ==> Enabled(w, Partial(id, upTo))) && Enabled(w, Complete(id))
       case Written => Enabled(w, Flush(id))
       case Flushed => Enabled(w, Publish(id))
       case Published => Enabled(w, SyncParent(id))
       case _ => w.writers[id].created ==> Enabled(w, RemoveTemp(id))
  }

  /** No writer waits for another. */
  lemma NeverStuck(w: World, id: nat, ino: nat, upTo: nat)
    requires Inv(w) && id in w.writers
    ensures StepsOf(w, id, ino, upTo)
  {
    assert WriterOk(w.fs, w.writers[id]);
  }

  // --------------------------------------------------- refinement of the one-file view

  /** An inode nobody can reach through the target may change freely. */
  lemma AbsFrame(fs: Fs, fs': Fs)
    requires fs'.survivors == fs.survivors && Entry(fs') == Entry(fs) && Entry(fs) in fs.survivors
    requires forall e :: e in fs.survivors ==> ImageOf(fs', e) == ImageOf(fs, e)
    ensures Abs(fs') == Abs(fs)
  {
  }

  lemma PublishAbs(w: World, id: nat)
    requires Inv(w) && Enabled(w, Publish(id)) && Next(w, Publish(id)).writers[id].stage.Published?
    ensures Abs(Next(w, Publish(id)).fs) == Renamed(Abs(w.fs), Some(w.writers[id].data))
  {
    var fs, fs', ino := w.fs, Next(w, Publish(id)).fs, w.writers[id].ino;
    assert Entry(fs') == Some(ino) && fs'.survivors == fs.survivors + {Some(ino)};
    assert forall e :: ImageOf(fs', e) == ImageOf(fs, e);
    assert ImageOf(fs, Some(ino)) == Some(w.writers[id].data);
  }

  lemma PowerLossAbs(w: World, a: Action)
    requires Inv(w) && Enabled(w, a) && a.PowerLoss?
    ensures Abs(Next(w, a).fs) == Disk(ImageOf(w.fs, a.entry), {ImageOf(w.fs, a.entry)})
    ensures ImageOf(w.fs, a.entry) in Abs(w.fs).durable
  {
    var fs' := Next(w, a).fs;
    assert Entry(fs') == a.entry && Solid(w.fs, a.entry);
    assert ImageOf(fs', a.entry) == ImageOf(w.fs, a.entry);
  }

  /** Seen through the target path, every step of every writer is invisible, or replaces the
      file by the writer's complete data, or makes the visible file durable, or loses power
      and keeps one of the durable contents. These are the steps module Disk offers. */
  lemma StepRefinesDisk(w: World, a: Action)
    requires Inv(w) && Enabled(w, a)
    ensures var d, d' := Abs(w.fs), Abs(Next(w, a).fs);
            if a.Publish? && Next(w, a).writers[a.id].stage.Published? then d' == Renamed(d, Some(w.writers[a.id].data))
            else if a.SyncParent? || a.CloseParentFails? then d' == Synced(d)
            else if a.PowerLoss? then d'.visible in d.durable && d' == Disk(d'.visible, {d'.visible})
            else d' == d
  {
    match a
    case Publish(id) =>
      if Next(w, a).writers[id].stage.Published? {
        PublishAbs(w, id);
      }
    case SyncParent(_) =>
    case CloseParentFails(_) =>
    case PowerLoss(_, _, _) => PowerLossAbs(w, a);
    case _ => AbsFrame(w.fs, Next(w, a).fs);
  }

  // ------------------------------------------------------------------ all or nothing

  function PublishedData(w: World): set<Image> {
    set id | id in w.writers && w.writers[id].published :: Some(w.writers[id].data)
  }

  /** The target is `c0` or the complete data of a writer that published it. */
  predicate Whole(w: World, c0: Image) {
    Abs(w.fs).durable <= {c0} + PublishedData(w) && Abs(w.fs).visible in Abs(w.fs).durable
  }

  lemma PublishedGrows(w: World, a: Action)
    requires Enabled(w, a)
    ensures PublishedData(w) <= PublishedData(Next(w, a))
  {
    var w' := Next(w, a);
    forall x | x in PublishedData(w) ensures x in PublishedData(w') {
      var id :| id in w.writers && w.writers[id].published && x == Some(w.writers[id].data);
      assert id in w'.writers && w'.writers[id].published && w'.writers[id].data == w.writers[id].data;
    }
  }

  lemma WholeStep(w: World, a: Action, c0: Image)
    requires Inv(w) && Enabled(w, a) && Whole(w, c0)
    ensures Whole(Next(w, a), c0)
  {
    StepRefinesDisk(w, a);
    PublishedGrows(w, a);
    var w' := Next(w, a);
    if a.Publish? && w'.writers[a.id].stage.Published? {
      assert Some(w'.writers[a.id].data) in PublishedData(w');
    }
  }

  /** Over every run of every set of writers, with crashes and power losses anywhere, the
      target path, read now or after a power loss, holds the complete old content or the
      complete content of some writer: never a torn file. */
  lemma {:induction false} AllOrNothing(w: World, run: seq<Action>, c0: Image)
    requires Inv(w) && Whole(w, c0) && ValidRun(w, run)
    ensures Inv(Run(w, run)) && Whole(Run(w, run), c0)
    decreases |run|
  {
    if run != [] {
      StepInv(w, run[0]);
      WholeStep(w, run[0], c0);
      AllOrNothing(Next(w, run[0]), run[1..], c0);
    }
  }

  lemma InitWhole(w: World)
    requires Init(w)
    ensures Inv(w) && Whole(w, Abs(w.fs).visible)
  {
  }

  predicate NobodyPublishes(run: seq<Action>) {
    forall i :: 0 <= i < |run| ==> !run[i].Publish?
  }

  /** Writer `id` linked `data`, and until it returns it is the target. */
  predicate Linked(w: World, id: nat, data: Content) {
    && id in w.writers && w.writers[id].data == data
    && (w.writers[id].stage.Published? || w.writers[id].stage.Final())
    && (w.writers[id].stage.Published? ==> Entry(w.fs) == Some(w.writers[id].ino))
  }

  lemma LinkedStep(w: World, a: Action, id: nat, data: Content)
    requires Linked(w, id, data) && Enabled(w, a) && !a.Publish?
    ensures Linked(Next(w, a), id, data)
  {
  }

  lemma LinkedShows(w: World, id: nat, data: Content)
    requires Inv(w) && Linked(w, id, data) && w.writers[id].stage.Published?
    ensures Abs(w.fs).visible == Some(data)
  {
    assert WriterOk(w.fs, w.writers[id]);
  }

  /** Until somebody else publishes, the target is what the last publisher wrote. */
  lemma {:induction false} OwnDataStays(w: World, run: seq<Action>, id: nat, data: Content)
    requires Linked(w, id, data) && ValidRun(w, run) && NobodyPublishes(run)
    ensures Linked(Run(w, run), id, data)
    decreases |run|
  {
    if run != [] {
      LinkedStep(w, run[0], id, data);
      OwnDataStays(Next(w, run[0]), run[1..], id, data);
    }
  }

  lemma PublishLinks(w: World, id: nat)
    requires Inv(w) && Enabled(w, Publish(id)) && Next(w, Publish(id)).writers[id].stage.Published?
    ensures Linked(Next(w, Publish(id)), id, w.writers[id].data)
  {
  }

  lemma LinkedIsDurable(w: World, run: seq<Action>, id: nat, data: Content)
    requires Inv(w) && Linked(w, id, data) && ValidRun(w, run) && Enabled(Run(w, run), SyncParent(id))
    ensures var v := Run(w, run);
            var d := Abs(Next(v, SyncParent(id)).fs);
            && d == Disk(Abs(v.fs).visible, {Abs(v.fs).visible})
            && (NobodyPublishes(run) ==> d == Disk(Some(data), {Some(data)}))
  {
    RunInv(w, run);
    StepRefinesDisk(Run(w, run), SyncParent(id));
    if NobodyPublishes(run) {
      OwnDataStays(w, run, id, data);
      LinkedShows(Run(w, run), id, data);
    }
  }

  /** A writer puts its file in place and later returns nil. Then the target as it stands is
      what every power loss leaves behind, and unless another writer published in the meantime
      it is the writer's own data. */
  lemma NilIsDurable(w: World, id: nat, run: seq<Action>)
    requires Inv(w) && Enabled(w, Publish(id)) && Next(w, Publish(id)).writers[id].stage.Published?
    requires ValidRun(Next(w, Publish(id)), run) && Enabled(Run(Next(w, Publish(id)), run), SyncParent(id))
    ensures var v := Run(Next(w, Publish(id)), run);
            var d, data := Abs(Next(v, SyncParent(id)).fs), Some(w.writers[id].data);
            && d == Disk(Abs(v.fs).visible, {Abs(v.fs).visible})
            && (NobodyPublishes(run) ==> d == Disk(data, {data}))
  {
    StepInv(w, Publish(id));
    PublishLinks(w, id);
    LinkedIsDurable(Next(w, Publish(id)), run, id, w.writers[id].data);
  }

  lemma {:induction false} RunInv(w: World, run: seq<Action>)
    requires Inv(w) && ValidRun(w, run)
    ensures Inv(Run(w, run))
    decreases |run|
  {
    if run != [] {
      StepInv(w, run[0]);
      RunInv(Next(w, run[0]), run[1..]);
    }
  }

  // --------------------------------------------------------------- never replaces

  predicate OnlyCreators(w: World) {
    forall id :: id in w.writers ==> w.writers[id].kind.CreateNew?
  }

  predicate NoReplacers(run: seq<Action>) {
    forall i :: 0 <= i < |run| && run[i].Start? ==> run[i].kind.CreateNew?
  }

  /** A creator between its link and its return owns the target; one that returned nil owns
      it durably. */
  predicate Owned(w: World) {
    && OnlyCreators(w)
    && (forall id :: id in w.writers && w.writers[id].stage.Published? ==> Entry(w.fs) == Some(w.writers[id].ino))
    && (forall id :: id in w.writers && w.writers[id].stage.Succeeded? ==> w.fs.survivors == {Some(w.writers[id].ino)})
  }

  lemma OwnedPublish(w: World, a: Action)
    requires Inv(w) && Owned(w) && Enabled(w, a) && a.Publish?
    ensures Owned(Next(w, a))
  {
    if Next(w, a).writers[a.id].stage.Published? {
      forall id | id in w.writers && id != a.id ensures !w.writers[id].stage.Published? && !w.writers[id].stage.Succeeded? {
        assert WriterOk(w.fs, w.writers[id]);
        assert Entry(w.fs) == None;
      }
    }
  }

  lemma OwnedCrash(w: World, a: Action)
    requires Inv(w) && Owned(w) && Enabled(w, a) && (a.Crash? || a.PowerLoss?)
    ensures Owned(Next(w, a))
  {
    var w' := Next(w, a);
    forall id | id in w'.writers && w'.writers[id].stage.Succeeded?
      ensures w'.fs.survivors == {Some(w'.writers[id].ino)}
    {
      assert w.writers[id].stage.Succeeded?;
    }
  }

  lemma OwnedSync(w: World, a: Action)
    requires Inv(w) && Owned(w) && Enabled(w, a) && (a.SyncParent? || a.CloseParentFails?)
    ensures Owned(Next(w, a))
  {
    assert Entry(w.fs) == Some(w.writers[a.id].ino);
  }

  lemma OwnedStep(w: World, a: Action)
    requires Inv(w) && Owned(w) && Enabled(w, a) && (a.Start? ==> a.kind.CreateNew?)
    ensures Owned(Next(w, a))
  {
    match a
    case Publish(_) => OwnedPublish(w, a);
    case Crash => OwnedCrash(w, a);
    case PowerLoss(_, _, _) => OwnedCrash(w, a);
    case SyncParent(_) => OwnedSync(w, a);
    case CloseParentFails(_) => OwnedSync(w, a);
    case _ => assert Next(w, a).fs.survivors == w.fs.survivors && Entry(Next(w, a).fs) == Entry(w.fs);
  }

  /** A target that is durably there is not touched by any creator. */
  lemma PinnedStep(w: World, a: Action, ino: nat)
    requires Inv(w) && Owned(w) && Enabled(w, a) && (a.Start? ==> a.kind.CreateNew?)
    requires w.fs.survivors == {Some(ino)}
    ensures Next(w, a).fs.survivors == {Some(ino)} && Abs(Next(w, a).fs) == Abs(w.fs)
  {
    assert Entry(w.fs) in w.fs.survivors;
    StepRefinesDisk(w, a);
    assert Abs(w.fs).durable == {ImageOf(w.fs, Some(ino))};
  }

  /** The no-replace writer never changes a file that is already there, whatever else runs
      and however often power is lost. */
  lemma {:induction false} NeverReplaced(w: World, run: seq<Action>, ino: nat)
    requires Inv(w) && Owned(w) && ValidRun(w, run) && NoReplacers(run)
    requires w.fs.survivors == {Some(ino)}
    ensures Inv(Run(w, run)) && Owned(Run(w, run)) && Run(w, run).fs.survivors == {Some(ino)}
    ensures Abs(Run(w, run).fs) == Abs(w.fs)
    decreases |run|
  {
    if run != [] {
      StepInv(w, run[0]);
      OwnedStep(w, run[0]);
      PinnedStep(w, run[0], ino);
      NeverReplaced(Next(w, run[0]), run[1..], ino);
    }
  }

  /** Without a power loss, even a target that is visible but not yet durable keeps its
      content: the link is refused whenever the path exists. */
  lemma {:induction false} NeverReplacedWhileUp(w: World, run: seq<Action>)
    requires Inv(w) && OnlyCreators(w) && ValidRun(w, run) && NoReplacers(run)
    requires Target in w.fs.dir && forall i :: 0 <= i < |run| ==> !run[i].PowerLoss?
    ensures Target in Run(w, run).fs.dir && Abs(Run(w, run).fs).visible == Abs(w.fs).visible
    decreases |run|
  {
    if run != [] {
      StepInv(w, run[0]);
      StepRefinesDisk(w, run[0]);
      var w' := Next(w, run[0]);
      assert Target in w'.fs.dir && OnlyCreators(w');
      NeverReplacedWhileUp(w', run[1..]);
    }
  }

  lemma {:induction false} OwnedRun(w: World, run: seq<Action>)
    requires Inv(w) && Owned(w) && ValidRun(w, run) && NoReplacers(run)
    ensures Inv(Run(w, run)) && Owned(Run(w, run))
    decreases |run|
  {
    if run != [] {
      StepInv(w, run[0]);
      OwnedStep(w, run[0]);
      OwnedRun(Next(w, run[0]), run[1..]);
    }
  }

  /** Over a whole run with crashes, at most one of any number of creators gets a nil result,
      and then the target is, now and after any power loss, exactly what it wrote. */
  lemma AtMostOneCreatorSucceeds(w: World, run: seq<Action>, i: nat)
    requires Init(w) && ValidRun(w, run) && NoReplacers(run)
    requires i in Run(w, run).writers && Run(w, run).writers[i].stage.Succeeded?
    ensures var v := Run(w, run);
            && (forall j :: j in v.writers && v.writers[j].stage.Succeeded? ==> j == i)
            && Abs(v.fs) == Disk(Some(v.writers[i].data), {Some(v.writers[i].data)})
  {
    InitWhole(w);
    OwnedRun(w, run);
    var v := Run(w, run);
    forall j | j in v.writers && v.writers[j].stage.Succeeded? ensures j == i {
      assert Some(v.writers[j].ino) in {Some(v.writers[i].ino)};
    }
    assert Entry(v.fs) == Some(v.writers[i].ino);
    assert Abs(v.fs).durable == {ImageOf(v.fs, Some(v.writers[i].ino))};
  }

  // --------------------------------------------- one writer as a run of the machine

  /** The system call that reports an error, if any. */
  datatype Fault =
    | AtCreate
    | AtWrite(upTo: nat)
    | AtChmod
    | AtFsync
    | AtClose
    | AtPublish
    | AtDirSync
    | AtDirClose
    | NoFault
  {
    /** The temp file was written and flushed. */
    predicate Late() { AtClose? || AtPublish? || AtDirSync? || AtDirClose? || NoFault? }
    /** Something was put in place. */
    predicate Published() { AtDirSync? || AtDirClose? || NoFault? }
  }

  function FateOf(f: Fault): Fate {
    if f.NoFault? || f.AtDirClose? then Succeeds else if f.AtDirSync? then FailsAfterRename else FailsBeforeRename
  }

  /** The writer returns nil: the replacing writer ignores an error from closing the directory
      once it is flushed, the creating one reports it. */
  predicate ReturnsNil(fs: Fs, kind: Kind, f: Fault) {
    !Blocked(fs, kind) && (f.NoFault? || (f.AtDirClose? && kind.Replace?))
  }

  /** No setuid, setgid or sticky bit, and nothing for group or others. */
  predicate ValidPerm(perm: bv32) {
    perm & !0x1FF == 0 && perm & 0x3F == 0
  }

  /** Exactly the eight modes with nothing but owner bits pass, 0o600 among them. */
  lemma PermMeans(perm: bv32)
    ensures ValidPerm(perm) <==> perm in {0x000, 0x040, 0x080, 0x0C0, 0x100, 0x140, 0x180, 0x1C0}
  {
  }

  /** Every content a power loss could leave behind is complete and among `contents`. */
  ghost predicate Safe(fs: Fs, contents: set<Image>) {
    && Entry(fs) in fs.survivors
    && (forall e :: e in fs.survivors ==> Solid(fs, e) && ImageOf(fs, e) in contents)
  }

  /** Nothing reachable in `fs` is different in `fs'`. */
  ghost predicate Untouched(fs: Fs, fs': Fs) {
    && Entry(fs') == Entry(fs) && fs'.survivors == fs.survivors
    && (forall i :: i in fs.inodes ==> i in fs'.inodes && fs'.inodes[i] == fs.inodes[i])
  }

  lemma UntouchedTarget(fs: Fs, fs': Fs, contents: set<Image>)
    requires Safe(fs, contents) && Untouched(fs, fs')
    ensures Safe(fs', contents) && Abs(fs') == Abs(fs)
  {
    AbsFrame(fs, fs');
  }

  lemma PublishTarget(fs: Fs, fs': Fs, ino: nat, data: Content, contents: set<Image>)
    requires Safe(fs, contents) && Some(data) in contents
    requires ino in fs.inodes && fs.inodes[ino] == Inode(data, true)
    requires fs' == Link(fs, ino) || fs' == Rename(fs, ino)
    ensures Safe(fs', contents) && Abs(fs') == Renamed(Abs(fs), Some(data))
    ensures Safe(SyncDir(fs'), contents) && Abs(SyncDir(fs')) == Synced(Abs(fs'))
  {
    assert Entry(fs') == Some(ino) && fs'.survivors == fs.survivors + {Some(ino)};
    assert forall e :: ImageOf(fs', e) == ImageOf(fs, e);
    assert ImageOf(fs, Some(ino)) == Some(data);
  }

  /** The file-system states a run passes through: every point a crash may hit. */
  function Trace(w: World, run: seq<Action>): (r: seq<Fs>)
    requires ValidRun(w, run)
    ensures |r| == |run| + 1 && r[0] == w.fs && r[|run|] == Run(w, run).fs
    decreases |run|
  {
    if run == [] then [w.fs] else [w.fs] + Trace(Next(w, run[0]), run[1..])
  }

  /** Every state of a run holds only the contents it began with and the writers' data. */
  lemma {:induction false} TraceIsSafe(w: World, run: seq<Action>, contents: set<Image>)
    requires Inv(w) && ValidRun(w, run) && Abs(w.fs).durable <= contents
    requires forall id :: id in w.writers ==> Some(w.writers[id].data) in contents
    requires forall i :: 0 <= i < |run| ==> !run[i].Start?
    ensures forall s :: s in Trace(w, run) ==> Safe(s, contents)
    decreases |run|
  {
    assert Safe(w.fs, contents) by {
      forall e | e in w.fs.survivors ensures ImageOf(w.fs, e) in contents {
        assert ImageOf(w.fs, e) in Abs(w.fs).durable;
      }
    }
    if run != [] {
      StepInv(w, run[0]);
      StepRefinesDisk(w, run[0]);
      TraceIsSafe(Next(w, run[0]), run[1..], contents);
    }
  }

  /** A creator that finds the target in place changes nothing about it at any point. */
  lemma {:induction false} TraceKeepsTarget(w: World, run: seq<Action>)
    requires Inv(w) && OnlyCreators(w) && ValidRun(w, run) && Target in w.fs.dir
    requires forall i :: 0 <= i < |run| ==>
               !run[i].Start? && !run[i].PowerLoss? && !run[i].SyncParent? && !run[i].CloseParentFails?
    ensures forall s :: s in Trace(w, run) ==> Abs(s) == Abs(w.fs)
    decreases |run|
  {
    if run != [] {
      StepInv(w, run[0]);
      StepRefinesDisk(w, run[0]);
      var w' := Next(w, run[0]);
      assert Target in w'.fs.dir && OnlyCreators(w');
      TraceKeepsTarget(w', run[1..]);
    }
  }

  function Alone(fs: Fs, kind: Kind, data: Content): World {
    World(fs, map[0 := Writer(kind, data, 0, Fresh, false, false)])
  }

  /** A creator finds something at the target path. */
  predicate Blocked(fs: Fs, kind: Kind) {
    kind.CreateNew? && Target in fs.dir
  }

  const GIVE_UP: seq<Action> := [Fail(0), RemoveTemp(0)]

  function PublishRun(kind: Kind, fault: Fault, blocked: bool): seq<Action> {
    if fault.AtClose? || fault.AtPublish? then GIVE_UP
    else if blocked then [Publish(0), RemoveTemp(0)]
    else if fault.AtDirSync? then [Publish(0), Fail(0), RemoveTemp(0)]
    else if fault.AtDirClose? && kind.CreateNew? then [Publish(0), CloseParentFails(0), RemoveTemp(0)]
    else [Publish(0), SyncParent(0), RemoveTemp(0)]
  }

  /** The system calls of one writer, as steps of the machine, up to the one that fails. */
  function WriterRun(kind: Kind, data: Content, ino: nat, fault: Fault, blocked: bool): seq<Action> {
    match fault
    case AtCreate => [Fail(0)]
    case AtWrite(upTo) => [Create(0, ino), Partial(0, Min(upTo, |data|))] + GIVE_UP
    case AtChmod => [Create(0, ino), Complete(0)] + GIVE_UP
    case AtFsync => [Create(0, ino), Complete(0)] + GIVE_UP
    case _ => [Create(0, ino), Complete(0), Flush(0)] + PublishRun(kind, fault, blocked)
  }

  /** The states after a failed call: nothing changed, then the temp file is removed. */
  function GiveUpStates(fs: Fs, ino: nat): seq<Fs> {
    [fs, fs, Remove(fs, Temp(ino))]
  }

  function PutInPlace(fs: Fs, kind: Kind, ino: nat): Fs {
    if kind.Replace? then Rename(fs, ino) else Link(fs, ino)
  }

  function PublishStates(fs: Fs, kind: Kind, ino: nat, fault: Fault): seq<Fs> {
    if fault.AtClose? || fault.AtPublish? || Blocked(fs, kind) then GiveUpStates(fs, ino)
    else
      var fs1 := PutInPlace(fs, kind, ino);
      [fs] + if fault.AtDirSync? then GiveUpStates(fs1, ino) else [fs1, SyncDir(fs1), Remove(SyncDir(fs1), Temp(ino))]
  }

  function TempFile(fs: Fs, ino: nat, data: Content): Fs {
    WriteData(CreateTemp(fs, ino), ino, data)
  }

  /** Nothing beyond the temp file was reached. */
  function EarlyStates(fs: Fs, written: Content, ino: nat): seq<Fs> {
    [fs, CreateTemp(fs, ino)] + GiveUpStates(TempFile(fs, ino, written), ino)
  }

  function LateStates(fs: Fs, kind: Kind, data: Content, ino: nat, fault: Fault): seq<Fs> {
    var fs2 := TempFile(fs, ino, data);
    [fs, CreateTemp(fs, ino), fs2] + PublishStates(Fsync(fs2, ino), kind, ino, fault)
  }

  /** The state of the file system before, between and after the calls of one writer. */
  function WriterStates(fs: Fs, kind: Kind, data: Content, ino: nat, fault: Fault): (r: seq<Fs>)
    ensures |r| >= 2 && r[0] == fs
  {
    match fault
    case AtCreate => [fs, fs]
    case AtWrite(upTo) => EarlyStates(fs, data[..Min(upTo, |data|)], ino)
    case AtChmod => EarlyStates(fs, data, ino)
    case AtFsync => EarlyStates(fs, data, ino)
    case _ => LateStates(fs, kind, data, ino, fault)
  }

  function Last(states: seq<Fs>): Fs
    requires states != []
  {
    states[|states| - 1]
  }

  /** The machine, running one writer alone, passes through exactly these states. */
  predicate Passes(w: World, run: seq<Action>, states: seq<Fs>, ok: bool) {
    && ValidRun(w, run) && Trace(w, run) == states
    && 0 in Run(w, run).writers && Run(w, run).writers[0].stage == if ok then Succeeded else Gone
  }

  lemma PassesThen(w: World, a: Action, rest: seq<Action>, states: seq<Fs>, ok: bool)
    requires Enabled(w, a) && Passes(Next(w, a), rest, states, ok)
    ensures Passes(w, [a] + rest, [w.fs] + states, ok)
  {
    assert ([a] + rest)[1..] == rest;
  }

  lemma PassesTwo(w: World, a: Action, b: Action, run: seq<Action>, states: seq<Fs>, ok: bool)
    requires Enabled(w, a) && Enabled(Next(w, a), b) && Passes(Next(Next(w, a), b), run, states, ok)
    ensures Passes(w, [a, b] + run, [w.fs, Next(w, a).fs] + states, ok)
  {
    var w1 := Next(w, a);
    PassesThen(w1, b, run, states, ok);
    PassesThen(w, a, [b] + run, [w1.fs] + states, ok);
    assert [a] + ([b] + run) == [a, b] + run;
    assert [w.fs] + ([w1.fs] + states) == [w.fs, w1.fs] + states;
  }

  lemma PassesLast(w: World, a: Action, ok: bool)
    requires Enabled(w, a) && 0 in Next(w, a).writers && Next(w, a).writers[0].stage == if ok then Succeeded else Gone
    ensures Passes(w, [a], [w.fs, Next(w, a).fs], ok)
  {
    assert [a][1..] == [];
  }

  lemma GiveUpPasses(w: World)
    requires 0 in w.writers && w.writers[0].created && !w.writers[0].stage.Final()
    ensures Passes(w, GIVE_UP, GiveUpStates(w.fs, w.writers[0].ino), false)
  {
    var w1 := Next(w, Fail(0));
    PassesLast(w1, RemoveTemp(0), false);
    PassesThen(w, Fail(0), [RemoveTemp(0)], [w.fs, Remove(w.fs, Temp(w.writers[0].ino))], false);
    assert [Fail(0)] + [RemoveTemp(0)] == GIVE_UP;
  }

  lemma BlockedPasses(w: World)
    requires 0 in w.writers && w.writers[0].created && w.writers[0].stage == Flushed && Blocked(w.fs, w.writers[0].kind)
    ensures Passes(w, [Publish(0), RemoveTemp(0)], GiveUpStates(w.fs, w.writers[0].ino), false)
  {
    PassesLast(Next(w, Publish(0)), RemoveTemp(0), false);
    PassesThen(w, Publish(0), [RemoveTemp(0)], [w.fs, Remove(w.fs, Temp(w.writers[0].ino))], false);
    assert [Publish(0)] + [RemoveTemp(0)] == [Publish(0), RemoveTemp(0)];
  }

  lemma PublishPasses(w: World, fault: Fault)
    requires 0 in w.writers && w.writers[0].created && w.writers[0].stage == Flushed
    requires fault.Late()
    ensures var r := w.writers[0];
            Passes(w, PublishRun(r.kind, fault, Blocked(w.fs, r.kind)), PublishStates(w.fs, r.kind, r.ino, fault),
                   ReturnsNil(w.fs, r.kind, fault))
  {
    if fault.AtClose? || fault.AtPublish? {
      GiveUpPasses(w);
    } else {
      var r, w1 := w.writers[0], Next(w, Publish(0));
      if Blocked(w.fs, r.kind) {
        BlockedPasses(w);
      } else if fault.AtDirSync? {
        GiveUpPasses(w1);
        PassesThen(w, Publish(0), GIVE_UP, GiveUpStates(w1.fs, r.ino), false);
        assert [Publish(0)] + GIVE_UP == [Publish(0), Fail(0), RemoveTemp(0)];
      } else {
        var a := if fault.AtDirClose? && r.kind.CreateNew? then CloseParentFails(0) else SyncParent(0);
        SyncPasses(w1, a);
        var fs2 := SyncDir(w1.fs);
        PassesThen(w, Publish(0), [a, RemoveTemp(0)], [w1.fs, fs2, Remove(fs2, Temp(r.ino))], a.SyncParent?);
        assert [Publish(0)] + [a, RemoveTemp(0)] == [Publish(0), a, RemoveTemp(0)];
      }
    }
  }

  /** The directory is flushed, and closing it fails or not. */
  lemma SyncPasses(w: World, a: Action)
    requires 0 in w.writers && w.writers[0].created && Enabled(w, a) && (a == SyncParent(0) || a == CloseParentFails(0))
    ensures var fs2 := SyncDir(w.fs);
            Passes(w, [a, RemoveTemp(0)], [w.fs, fs2, Remove(fs2, Temp(w.writers[0].ino))], a.SyncParent?)
  {
    var fs2 := SyncDir(w.fs);
    PassesLast(Next(w, a), RemoveTemp(0), a.SyncParent?);
    PassesThen(w, a, [RemoveTemp(0)], [fs2, Remove(fs2, Temp(w.writers[0].ino))], a.SyncParent?);
    assert [a] + [RemoveTemp(0)] == [a, RemoveTemp(0)];
  }

  lemma TempPasses(w: World, ino: nat, written: Action)
    requires 0 in w.writers && w.writers[0].stage == Fresh && ino !in w.fs.inodes
    requires written == Complete(0) || (written.Partial? && written.id == 0 && written.upTo <= |w.writers[0].data|)
    ensures var data := if written.Partial? then w.writers[0].data[..written.upTo] else w.writers[0].data;
            Passes(w, [Create(0, ino), written] + GIVE_UP, EarlyStates(w.fs, data, ino), false)
  {
    var w1 := Next(w, Create(0, ino));
    var w2 := Next(w1, written);
    GiveUpPasses(w2);
    PassesTwo(w, Create(0, ino), written, GIVE_UP, GiveUpStates(w2.fs, ino), false);
  }

  lemma Regroup<T>(x: T, y: T, z: T, rest: seq<T>)
    ensures [x] + ([y, z] + rest) == [x, y, z] + rest
  {
  }

  lemma PassesThree(w: World, a: Action, b: Action, c: Action, run: seq<Action>, states: seq<Fs>, ok: bool)
    requires Enabled(w, a) && Enabled(Next(w, a), b) && Enabled(Next(Next(w, a), b), c)
    requires Passes(Next(Next(Next(w, a), b), c), run, states, ok)
    ensures Passes(w, [a, b, c] + run, [w.fs, Next(w, a).fs, Next(Next(w, a), b).fs] + states, ok)
  {
    var w1 := Next(w, a);
    var fs2 := Next(w1, b).fs;
    PassesTwo(w1, b, c, run, states, ok);
    PassesThen(w, a, [b, c] + run, [w1.fs, fs2] + states, ok);
    Regroup(a, b, c, run);
    Regroup(w.fs, w1.fs, fs2, states);
  }

  lemma FlushedWorld(w: World, ino: nat) returns (w3: World)
    requires 0 in w.writers && w.writers[0].stage == Fresh && ino !in w.fs.inodes
    ensures Enabled(w, Create(0, ino)) && Enabled(Next(w, Create(0, ino)), Complete(0))
    ensures Enabled(Next(Next(w, Create(0, ino)), Complete(0)), Flush(0))
    ensures w3 == Next(Next(Next(w, Create(0, ino)), Complete(0)), Flush(0))
    ensures w3.fs == Fsync(TempFile(w.fs, ino, w.writers[0].data), ino)
    ensures 0 in w3.writers && w3.writers[0] == w.writers[0].(ino := ino, stage := Flushed, created := true)
    ensures Target in w3.fs.dir <==> Target in w.fs.dir
  {
    w3 := Next(Next(Next(w, Create(0, ino)), Complete(0)), Flush(0));
  }

  lemma LatePasses(w: World, ino: nat, fault: Fault)
    requires 0 in w.writers && w.writers[0].stage == Fresh && ino !in w.fs.inodes
    requires fault.Late()
    ensures var r := w.writers[0];
            Passes(w, [Create(0, ino), Complete(0), Flush(0)] + PublishRun(r.kind, fault, Blocked(w.fs, r.kind)),
                   LateStates(w.fs, r.kind, r.data, ino, fault), ReturnsNil(w.fs, r.kind, fault))
  {
    var r := w.writers[0];
    var w3 := FlushedWorld(w, ino);
    PublishPasses(w3, fault);
    PassesThree(w, Create(0, ino), Complete(0), Flush(0), PublishRun(r.kind, fault, Blocked(w.fs, r.kind)),
                PublishStates(w3.fs, r.kind, ino, fault), ReturnsNil(w.fs, r.kind, fault));
  }

  /** One writer on its own is a run of the machine: same states, in the same order, and it
      ends in success exactly if no call failed and nothing was in the way. */
  lemma WriterIsARun(fs: Fs, kind: Kind, data: Content, ino: nat, fault: Fault)
    requires ino !in fs.inodes
    ensures Passes(Alone(fs, kind, data), WriterRun(kind, data, ino, fault, Blocked(fs, kind)),
                   WriterStates(fs, kind, data, ino, fault), ReturnsNil(fs, kind, fault))
  {
    var w := Alone(fs, kind, data);
    match fault
    case AtCreate => PassesLast(w, Fail(0), false);
    case AtWrite(upTo) => TempPasses(w, ino, Partial(0, Min(upTo, |data|)));
    case AtChmod => TempPasses(w, ino, Complete(0));
    case AtFsync => TempPasses(w, ino, Complete(0));
    case _ => LatePasses(w, ino, fault);
  }

  /** The state path is whole: whatever a power loss leaves behind is complete. */
  ghost predicate Healthy(fs: Fs) {
    Safe(fs, Abs(fs).durable)
  }

  ghost predicate AllSafe(states: seq<Fs>, contents: set<Image>) {
    forall s :: s in states ==> Safe(s, contents)
  }

  predicate AllShow(states: seq<Fs>, d: Disk<Image>) {
    forall s :: s in states ==> Abs(s) == d
  }

  lemma NoStart(kind: Kind, data: Content, ino: nat, fault: Fault, blocked: bool)
    ensures forall a :: a in WriterRun(kind, data, ino, fault, blocked) ==>
              !a.Start? && !a.PowerLoss? && (a.SyncParent? || a.CloseParentFails? ==> !blocked)
  {
  }

  lemma AloneInv(fs: Fs, kind: Kind, data: Content)
    requires Healthy(fs)
    ensures Inv(Alone(fs, kind, data))
  {
  }

  lemma PassesSafely(w: World, run: seq<Action>, states: seq<Fs>, ok: bool, contents: set<Image>)
    requires Passes(w, run, states, ok) && Inv(w) && Abs(w.fs).durable <= contents
    requires forall id :: id in w.writers ==> Some(w.writers[id].data) in contents
    requires forall a :: a in run ==> !a.Start?
    ensures AllSafe(states, contents)
  {
    TraceIsSafe(w, run, contents);
  }

  /** Wherever a crash hits a writer, the path holds a content it could have held before, or
      the whole data. */
  lemma WriterIsSafe(fs: Fs, kind: Kind, data: Content, ino: nat, fault: Fault)
    requires Healthy(fs) && ino !in fs.inodes
    ensures AllSafe(WriterStates(fs, kind, data, ino, fault), Abs(fs).durable + {Some(data)})
  {
    WriterIsARun(fs, kind, data, ino, fault);
    NoStart(kind, data, ino, fault, Blocked(fs, kind));
    AloneInv(fs, kind, data);
    PassesSafely(Alone(fs, kind, data), WriterRun(kind, data, ino, fault, Blocked(fs, kind)),
                 WriterStates(fs, kind, data, ino, fault), ReturnsNil(fs, kind, fault), Abs(fs).durable + {Some(data)});
  }

  /** A creator that finds the target in place leaves it alone at every point. */
  lemma BlockedIsInvisible(fs: Fs, data: Content, ino: nat, fault: Fault)
    requires Healthy(fs) && ino !in fs.inodes && Target in fs.dir
    ensures AllShow(WriterStates(fs, CreateNew, data, ino, fault), Abs(fs))
  {
    WriterIsARun(fs, CreateNew, data, ino, fault);
    NoStart(CreateNew, data, ino, fault, true);
    TraceKeepsTarget(Alone(fs, CreateNew, data), WriterRun(CreateNew, data, ino, fault, true));
  }

  lemma FlushedUntouched(fs: Fs, data: Content, ino: nat) returns (flushed: Fs)
    requires ino !in fs.inodes && (forall e :: e in fs.survivors ==> Solid(fs, e))
    ensures flushed == Fsync(TempFile(fs, ino, data), ino) && Untouched(fs, flushed)
    ensures ino in flushed.inodes && flushed.inodes[ino] == Inode(data, true)
  {
    flushed := Fsync(TempFile(fs, ino, data), ino);
  }

  lemma RemovedTemp(fs: Fs, ino: nat, contents: set<Image>)
    requires Safe(fs, contents)
    ensures Abs(Remove(fs, Temp(ino))) == Abs(fs)
  {
    UntouchedTarget(fs, Remove(fs, Temp(ino)), contents);
  }

  lemma PublishedAbs(fs: Fs, kind: Kind, data: Content, ino: nat, fault: Fault, contents: set<Image>)
    requires Safe(fs, contents) && Some(data) in contents && ino in fs.inodes && fs.inodes[ino] == Inode(data, true)
    requires !Blocked(fs, kind) && fault.Published()
    ensures Abs(Last(PublishStates(fs, kind, ino, fault))) == Write(Abs(fs), Some(data), FateOf(fault))
  {
    var linked := PutInPlace(fs, kind, ino);
    PublishTarget(fs, linked, ino, data, contents);
    if fault.AtDirSync? {
      RemovedTemp(linked, ino, contents);
    } else {
      RemovedTemp(SyncDir(linked), ino, contents);
    }
  }

  lemma LateAbs(fs: Fs, kind: Kind, data: Content, ino: nat, fault: Fault, contents: set<Image>)
    requires Safe(fs, contents) && Some(data) in contents && ino !in fs.inodes
    requires !Blocked(fs, kind) && fault.Published()
    ensures Abs(Last(LateStates(fs, kind, data, ino, fault))) == Write(Abs(fs), Some(data), FateOf(fault))
  {
    var flushed := FlushedUntouched(fs, data, ino);
    UntouchedTarget(fs, flushed, contents);
    PublishedAbs(flushed, kind, data, ino, fault, contents);
  }

  /** What a writer does to the one-file view. */
  lemma WriterAbs(fs: Fs, kind: Kind, data: Content, ino: nat, fault: Fault)
    requires Healthy(fs) && ino !in fs.inodes
    ensures Abs(Last(WriterStates(fs, kind, data, ino, fault)))
            == if Blocked(fs, kind) then Abs(fs) else Write(Abs(fs), Some(data), FateOf(fault))
  {
    var after := Last(WriterStates(fs, kind, data, ino, fault));
    if FateOf(fault).FailsBeforeRename? || Blocked(fs, kind) {
      UntouchedTarget(fs, after, Abs(fs).durable);
    } else {
      LateAbs(fs, kind, data, ino, fault, Abs(fs).durable + {Some(data)});
    }
  }

  /** No temp file stays behind, and one inode was used. */
  predicate NothingLeft(before: Fs, after: Fs, ino: nat) {
    after.inodes.Keys <= before.inodes.Keys + {ino} && after.dir.Keys <= before.dir.Keys + {Target}
  }

  lemma NoTempLeft(fs: Fs, kind: Kind, data: Content, ino: nat, fault: Fault)
    ensures NothingLeft(fs, Last(WriterStates(fs, kind, data, ino, fault)), ino)
  {
  }

  lemma EndsSafe(states: seq<Fs>, contents: set<Image>)
    requires AllSafe(states, contents) && states != []
    ensures Healthy(Last(states))
  {
    assert Last(states) in states;
  }

  lemma WriterContract(fs: Fs, kind: Kind, data: Content, ino: nat, fault: Fault, states: seq<Fs>)
    requires Healthy(fs) && ino !in fs.inodes && states == WriterStates(fs, kind, data, ino, fault)
    ensures AllSafe(states, Abs(fs).durable + {Some(data)}) && Healthy(Last(states)) && NothingLeft(fs, Last(states), ino)
    ensures Abs(Last(states)) == if Blocked(fs, kind) then Abs(fs) else Write(Abs(fs), Some(data), FateOf(fault))
    ensures Blocked(fs, kind) ==> AllShow(states, Abs(fs))
  {
    WriterIsSafe(fs, kind, data, ino, fault);
    WriterAbs(fs, kind, data, ino, fault);
    NoTempLeft(fs, kind, data, ino, fault);
    EndsSafe(states, Abs(fs).durable + {Some(data)});
    if Blocked(fs, kind) {
      BlockedIsInvisible(fs, data, ino, fault);
    }
  }

  // ------------------------------------------------------- the writers as they are coded

  /** The file system went from `before` to `after` through exactly the states of one writer, as
      its history tells, and every content a crash could leave in any of them is one that
      `before` could leave, or the whole data. */
  ghost predicate WroteSafely(before: Fs, after: Fs, was: seq<Fs>, now: seq<Fs>,
                              kind: Kind, data: Content, ino: nat, fault: Fault) {
    var states := WriterStates(before, kind, data, ino, fault);
    after == Last(states) && now == was + states[1..] && AllSafe(states, Abs(before).durable + {Some(data)})
  }

  /** The states of a writer whose temp file is flushed are those up to there and those of
      the rest. */
  lemma LateSplits(fs: Fs, kind: Kind, data: Content, ino: nat, fault: Fault, flushed: Fs, before: seq<Fs>)
    requires fault.Late()
    requires flushed == Fsync(TempFile(fs, ino, data), ino)
    ensures Blocked(flushed, kind) <==> Blocked(fs, kind)
    ensures var states, rest := WriterStates(fs, kind, data, ino, fault), PublishStates(flushed, kind, ino, fault);
            && Last(states) == Last(rest)
            && before + states[1..]
               == before + [CreateTemp(fs, ino), TempFile(fs, ino, data), flushed] + rest[1..]
  {
    var states, rest := WriterStates(fs, kind, data, ino, fault), PublishStates(flushed, kind, ino, fault);
    assert rest[0] == flushed;
    assert states[1..] == [CreateTemp(fs, ino), TempFile(fs, ino, data), flushed] + rest[1..];
  }

  lemma EarlySplits(fs: Fs, written: Content, ino: nat, before: seq<Fs>)
    ensures var temp, states := TempFile(fs, ino, written), EarlyStates(fs, written, ino);
            && Last(states) == Remove(temp, Temp(ino))
            && before + [CreateTemp(fs, ino)] + [temp] + GiveUpStates(temp, ino)[1..] == before + states[1..]
  {
  }

  class FileSystem {
    var fs: Fs
    /** Every state the file system has been in since it was made: the points a crash may hit. */
    ghost var history: seq<Fs>

    constructor (initial: Fs)
      ensures fs == initial && history == [initial]
    {
      fs := initial;
      history := [initial];
    }

    /** One system call. A call that reports an error leaves the state as it is. */
    method Call(next: Fs)
      modifies this
      ensures fs == next && history == old(history) + [next]
    {
      fs := next;
      history := history + [next];
    }

    method GiveUp(ino: nat)
      modifies this
      ensures fs == Last(GiveUpStates(old(fs), ino)) && history == old(history) + GiveUpStates(old(fs), ino)[1..]
    {
      Call(fs);
      Call(Remove(fs, Temp(ino)));
    }

    /** The part both writers share: create, write, chmod and fsync a temp file, and remove
        it again if one of these fails. */
    method WriteTemp(data: Content, ino: nat, fault: Fault) returns (ok: bool)
      modifies this
      ensures ok <==> fault.Late()
      ensures ok ==>
                var fs2 := TempFile(old(fs), ino, data);
                fs == Fsync(fs2, ino) && history == old(history) + [CreateTemp(old(fs), ino), fs2, Fsync(fs2, ino)]
      ensures !ok ==> forall kind ::
                var states := WriterStates(old(fs), kind, data, ino, fault);
                fs == Last(states) && history == old(history) + states[1..]
    {
      if fault.AtCreate? {
        Call(fs);
        return false;
      }
      Call(CreateTemp(fs, ino));
      if fault.AtWrite? {
        Call(WriteData(fs, ino, data[..Min(fault.upTo, |data|)]));
        GiveUp(ino);
        EarlySplits(old(fs), data[..Min(fault.upTo, |data|)], ino, old(history));
        return false;
      }
      Call(WriteData(fs, ino, data));
      if fault.AtChmod? || fault.AtFsync? {
        GiveUp(ino);
        EarlySplits(old(fs), data, ino, old(history));
        return false;
      }
      Call(Fsync(fs, ino));
      return true;
    }

    /** Close the temp file and rename it over the target, or link it where link(2) refuses an
        existing target, then flush the directory; the deferred removal runs in every case. */
    method Publish(kind: Kind, ino: nat, fault: Fault) returns (ok: bool)
      modifies this
      ensures fault.Late() ==> (ok <==> ReturnsNil(old(fs), kind, fault))
      ensures var states := PublishStates(old(fs), kind, ino, fault);
              fs == Last(states) && history == old(history) + states[1..]
    {
      if fault.AtClose? || fault.AtPublish? || (kind.CreateNew? && Target in fs.dir) {
        GiveUp(ino);
        return false;
      }
      Call(if kind.Replace? then Rename(fs, ino) else Link(fs, ino));
      if fault.AtDirSync? {
        GiveUp(ino);
        return false;
      }
      Call(SyncDir(fs));
      Call(Remove(fs, Temp(ino)));
      return kind.Replace? || !fault.AtDirClose?;
    }

    /** One writer from end to end. */
    method WriteAs(kind: Kind, data: Content, ino: nat, fault: Fault) returns (ok: bool)
      modifies this
      ensures ok <==> ReturnsNil(old(fs), kind, fault)
      ensures var states := WriterStates(old(fs), kind, data, ino, fault);
              fs == Last(states) && history == old(history) + states[1..]
    {
      ok := WriteTemp(data, ino, fault);
      if ok {
        LateSplits(old(fs), kind, data, ino, fault, fs, old(history));
        ok := Publish(kind, ino, fault);
      }
    }

    /** writeBytesAtomic: replace the target by rename. Every state on the way, where a crash
        may hit, holds a content the path could hold before or the whole new data. */
    method WriteBytesAtomic(data: Content, ino: nat, fault: Fault) returns (ok: bool)
      requires Healthy(fs) && ino !in fs.inodes
      modifies this
      ensures ok <==> FateOf(fault).Succeeds?
      ensures WroteSafely(old(fs), fs, old(history), history, Replace, data, ino, fault) && Healthy(fs)
      ensures Abs(fs) == Write(old(Abs(fs)), Some(data), FateOf(fault))
      ensures NothingLeft(old(fs), fs, ino)
    {
      ghost var states := WriterStates(fs, Replace, data, ino, fault);
      WriterContract(fs, Replace, data, ino, fault, states);
      ok := WriteAs(Replace, data, ino, fault);
      assert fs == Last(states);
    }

    /** WriteNewFileAtomic: create the target by hard link. A target that exists is refused,
        and no state on the way shows anything but what was there. */
    method WriteNewFileAtomic(perm: bv32, data: Content, ino: nat, fault: Fault) returns (ok: bool)
      requires Healthy(fs) && ino !in fs.inodes
      modifies this
      ensures ok <==> ValidPerm(perm) && old(Entry(fs)).None? && fault.NoFault?
      ensures !ValidPerm(perm) ==> fs == old(fs) && history == old(history)
      ensures ValidPerm(perm) ==> WroteSafely(old(fs), fs, old(history), history, CreateNew, data, ino, fault) && Healthy(fs)
      ensures old(Entry(fs)).Some? ==> AllShow(WriterStates(old(fs), CreateNew, data, ino, fault), old(Abs(fs)))
      ensures ValidPerm(perm) && old(Entry(fs)).None? ==> Abs(fs) == Write(old(Abs(fs)), Some(data), FateOf(fault))
      ensures NothingLeft(old(fs), fs, ino)
    {
      ghost var states := WriterStates(fs, CreateNew, data, ino, fault);
      WriterContract(fs, CreateNew, data, ino, fault, states);
      if !ValidPerm(perm) {
        return false;
      }
      ok := WriteAs(CreateNew, data, ino, fault);
      assert fs == Last(states);
    }
  }
}
