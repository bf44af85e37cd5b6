/**
 * The store on disk, the rewrite `forget` applies to it, and its repair.
 *
 * A process may die between any two writes. `life` says how many disk writes the
 * running process still gets to make, None where nothing interrupts it; every
 * step that reaches the disk asks `Survive` first. What a crash leaves behind is
 * then whatever the fields hold when a method returns early.
 */
module HistoryStore {
  import opened Wrappers
  import opened Git
  import opened Rewrite
  import opened TagNames
  import opened VersionWords

  type Tags = map<string, Tag>
  type TagPlan = map<string, Option<Tag>>

  /** Everything the checkpoint file says. */
  datatype Plan = Plan(key: string, head: Option<Commit>, notes: Notes, tags: TagPlan, generation: nat)

  datatype Object = CommitObject(commit: Commit) | TagObject(tag: Tag) | BlobObject(text: string)

  datatype Refusal = ForgetPending | UnknownRevision | UnknownVersion | NameTaken | NameUnusable

  datatype Outcome<+T> = Done(value: T) | Refused(why: Refusal)

  /** The fields that live on disk, as one value. */
  datatype Disk = Disk(
    head: Option<Commit>, notes: Notes, packed: Tags, loose: Tags,
    index: Files, worktree: Files, objects: set<Object>,
    generation: nat, checkpoint: Option<Plan>)
  {
    /** The tags a reader sees: a loose ref hides a packed one of its name. */
    function Tags(): Tags { packed + loose }
  }

  // -- reachability ------------------------------------------------------

  function Blobs(files: Files): set<Object> {
    set path | path in files :: BlobObject(files[path])
  }

  function ChainObjects(head: Option<Commit>): (found: set<Object>)
    decreases head
  {
    if head.None? then {}
    else {CommitObject(head.value)} + Blobs(head.value.tree) + ChainObjects(head.value.parent)
  }

  function TagObjects(tag: Tag): set<Object> {
    (if tag.Annotated? then {TagObject(tag)} else {}) + ChainObjects(Some(tag.target))
  }

  /** What some ref leads to. */
  function Reachable(head: Option<Commit>, tags: Tags): set<Object> {
    ChainObjects(head) + set ref, o | ref in tags && o in TagObjects(tags[ref]) :: o
  }

  /** What a collection must leave alone: reachable from a ref, or staged. */
  function Needed(head: Option<Commit>, tags: Tags, index: Files): set<Object> {
    Reachable(head, tags) + Blobs(index)
  }

  // -- what a finished forget leaves -------------------------------------

  function FilesOfKey(key: string): set<Path> {
    {State(key), Meta(key)}
  }

  /** A mapping of refs to targets laid over the tags there are; None removes one. */
  function Applied(tags: Tags, changed: TagPlan): Tags {
    (tags - changed.Keys) + map ref | ref in changed && changed[ref].Some? :: changed[ref].value
  }

  function FinalObjects(start: Disk, plan: Plan): set<Object> {
    start.objects * Needed(plan.head, Applied(start.Tags(), plan.tags), Without(start.index, plan.key))
  }

  /** The disk after a forget nothing interrupted. */
  function Finished(start: Disk, plan: Plan): Disk {
    Disk(plan.head, plan.notes, Applied(start.Tags(), plan.tags), map[],
         Without(start.index, plan.key), Without(start.worktree, plan.key),
         FinalObjects(start, plan), start.generation + 1, None)
  }

  /** A plan whose every target is in the store and reachable once it is applied. */
  ghost predicate WellPlanned(start: Disk, plan: Plan) {
    && plan.generation == start.generation + 1
    && ChainObjects(plan.head) <= start.objects
    && (forall c :: c in plan.notes ==> c in Chain(plan.head))
    && (forall ref :: ref in plan.tags && plan.tags[ref].Some? ==> TagObjects(plan.tags[ref].value) <= start.objects)
  }

  /**
   * A disk on which this plan has been begun and not finished: whatever happened
   * so far touched nothing but what the plan is about, and threw away nothing
   * the finished state still needs.
   */
  ghost predicate InFlight(d: Disk, start: Disk, plan: Plan) {
    && WellPlanned(start, plan)
    && d.checkpoint == Some(plan)
    && (d.generation == start.generation || d.generation == plan.generation)
    && d.Tags() - plan.tags.Keys == start.Tags() - plan.tags.Keys
    && Without(d.index, plan.key) == Without(start.index, plan.key)
    && Without(d.worktree, plan.key) == Without(start.worktree, plan.key)
    && FinalObjects(start, plan) <= d.objects <= start.objects
  }

  /** Whatever is on a history needs all of it: every commit, and the text of every file in it. */
  lemma {:induction false} ChainNeeds(head: Option<Commit>, c: Commit, path: Path)
    requires c in Chain(head)
    ensures CommitObject(c) in ChainObjects(head)
    ensures path in c.tree ==> BlobObject(c.tree[path]) in ChainObjects(head)
    decreases head
  {
    if c != head.value {
      ChainNeeds(head.value.parent, c, path);
    }
  }

  /** What a collection spares: all that HEAD or a tag leads to, the tags themselves, and what is staged. */
  lemma NeededHolds(d: Disk, c: Commit, path: Path, ref: string)
    ensures c in Chain(d.head) ==> CommitObject(c) in Needed(d.head, d.Tags(), d.index)
    ensures c in Chain(d.head) && path in c.tree ==> BlobObject(c.tree[path]) in Needed(d.head, d.Tags(), d.index)
    ensures path in d.index ==> BlobObject(d.index[path]) in Needed(d.head, d.Tags(), d.index)
    ensures ref in d.Tags() && d.Tags()[ref].Annotated? ==>
      TagObject(d.Tags()[ref]) in Needed(d.head, d.Tags(), d.index)
    ensures ref in d.Tags() && c in Chain(Some(d.Tags()[ref].target)) ==>
      && CommitObject(c) in Needed(d.head, d.Tags(), d.index)
      && (path in c.tree ==> BlobObject(c.tree[path]) in Needed(d.head, d.Tags(), d.index))
  {
    if c in Chain(d.head) {
      ChainNeeds(d.head, c, path);
    }
    if ref in d.Tags() {
      TagNeeds(d, ref);
      if c in Chain(Some(d.Tags()[ref].target)) {
        ChainNeeds(Some(d.Tags()[ref].target), c, path);
      }
    }
  }

  /** An object on a history is one of its commits, or the text of a file in one. */
  ghost predicate IsPartOf(o: Object, head: Option<Commit>) {
    || (o.CommitObject? && o.commit in Chain(head))
    || (o.BlobObject? && exists c, path :: c in Chain(head) && path in c.tree && c.tree[path] == o.text)
  }

  lemma {:induction false} ChainIsParts(head: Option<Commit>, o: Object)
    requires o in ChainObjects(head)
    ensures IsPartOf(o, head)
    decreases head
  {
    var c := head.value;
    if o in Blobs(c.tree) {
      var path :| path in c.tree && o == BlobObject(c.tree[path]);
      assert c in Chain(head);
    } else if o != CommitObject(c) {
      ChainIsParts(c.parent, o);
      PartOfMore(c, o);
    }
  }

  lemma PartOfMore(c: Commit, o: Object)
    requires IsPartOf(o, c.parent)
    ensures IsPartOf(o, Some(c))
  {
    assert Chain(Some(c)) == [c] + Chain(c.parent);
    if o.BlobObject? {
      var d, path :| d in Chain(c.parent) && path in d.tree && d.tree[path] == o.text;
      assert d in Chain(Some(c));
    }
  }

  /** And nothing else is spared: no text but of a file that HEAD or a tag leads to or that is staged. */
  lemma NeededIsReached(d: Disk, o: Object)
    requires o in Needed(d.head, d.Tags(), d.index)
    ensures || IsPartOf(o, d.head)
            || (exists ref ::
                  ref in d.Tags() && (o == TagObject(d.Tags()[ref]) || IsPartOf(o, Some(d.Tags()[ref].target))))
            || (exists path :: path in d.index && o == BlobObject(d.index[path]))
  {
    if o in ChainObjects(d.head) {
      ChainIsParts(d.head, o);
    } else if o !in Blobs(d.index) {
      var ref :| ref in d.Tags() && o in TagObjects(d.Tags()[ref]);
      if o in ChainObjects(Some(d.Tags()[ref].target)) {
        ChainIsParts(Some(d.Tags()[ref].target), o);
      }
    }
  }

  lemma TagNeeds(d: Disk, ref: string)
    requires ref in d.Tags()
    ensures TagObjects(d.Tags()[ref]) <= Needed(d.head, d.Tags(), d.index)
  {
  }

  lemma {:induction false} OnTheChain(head: Option<Commit>, c: Commit)
    requires c in Chain(head)
    ensures CommitObject(c) in ChainObjects(head)
    decreases head
  {
    if c != head.value {
      OnTheChain(head.value.parent, c);
    }
  }

  lemma AppliedUnderLoose(packed: Tags, loose: Tags, changed: TagPlan)
    ensures Applied(packed, changed) + (loose - changed.Keys) == Applied(packed + loose, changed)
    ensures Applied(packed + loose, changed) - changed.Keys == packed + loose - changed.Keys
  {
  }

  /** A change that stays within what a plan is about and deletes no object. */
  ghost predicate WithinPlan(before: Disk, after: Disk, plan: Plan) {
    && after.checkpoint == before.checkpoint
    && after.objects == before.objects
    && (after.generation == before.generation || after.generation == plan.generation)
    && after.Tags() - plan.tags.Keys == before.Tags() - plan.tags.Keys
    && Without(after.index, plan.key) == Without(before.index, plan.key)
    && Without(after.worktree, plan.key) == Without(before.worktree, plan.key)
  }

  lemma StillInFlight(before: Disk, after: Disk, start: Disk, plan: Plan)
    requires InFlight(before, start, plan) && WithinPlan(before, after, plan)
    ensures InFlight(after, start, plan)
  {
  }

  /** Everything but the objects and the checkpoint is where the plan wants it. */
  ghost predicate Moved(d: Disk, start: Disk, plan: Plan) {
    && InFlight(d, start, plan)
    && d.generation == plan.generation && d.head == plan.head && d.notes == plan.notes
    && d.Tags() == Applied(start.Tags(), plan.tags)
    && d.index == Without(start.index, plan.key) && d.worktree == Without(start.worktree, plan.key)
  }

  lemma TargetsReached(before: Disk, moved: Disk, start: Disk, plan: Plan)
    requires InFlight(before, start, plan) && InFlight(moved, start, plan)
    requires moved.generation == plan.generation && moved.head == plan.head && moved.notes == plan.notes
    requires moved.Tags() == Applied(before.Tags(), plan.tags)
    requires moved.index == Without(before.index, plan.key) && moved.worktree == Without(before.worktree, plan.key)
    ensures Moved(moved, start, plan)
  {
  }

  /** A collection spares what the plan needs, and a finished one leaves exactly that. */
  lemma Settled(moved: Disk, after: Disk, start: Disk, plan: Plan, done: bool)
    requires Moved(moved, start, plan)
    requires after.Tags() == moved.Tags() && after.checkpoint == (if done then None else moved.checkpoint)
    requires after.(packed := moved.packed, loose := moved.loose, objects := moved.objects,
                    checkpoint := moved.checkpoint) == moved
    requires moved.objects * Needed(moved.head, moved.Tags(), moved.index) <= after.objects <= moved.objects
    requires done ==> after.objects == moved.objects * Needed(moved.head, moved.Tags(), moved.index)
    requires done ==> after.packed == moved.Tags() && after.loose == map[]
    ensures if done then after == Finished(start, plan) else InFlight(after, start, plan)
  {
  }

  /** Whether every value of a checkpoint names something the store holds. */
  predicate Accepts(objects: set<Object>, generation: nat, plan: Plan) {
    && (plan.head.Some? ==> CommitObject(plan.head.value) in objects)
    && (forall c :: c in plan.notes ==> CommitObject(c) in objects)
    && (forall ref :: ref in plan.tags && plan.tags[ref].Some? ==>
          var tag := plan.tags[ref].value;
          (if tag.Annotated? then TagObject(tag) else CommitObject(tag.target)) in objects)
    && (plan.generation == generation || plan.generation == generation + 1)
  }

  /**
   * Every commit, note and tag object a checkpoint names is in the store, and its
   * generation is this one or the next.
   */
  ghost predicate Trustworthy(objects: set<Object>, generation: nat, plan: Plan) {
    && (forall c :: plan.head == Some(c) ==> CommitObject(c) in objects)
    && (forall c :: c in plan.notes ==> CommitObject(c) in objects)
    && (forall ref, tag: Tag :: ref in plan.tags && plan.tags[ref] == Some(tag) ==>
          && (tag.Annotated? ==> TagObject(tag) in objects)
          && (!tag.Annotated? ==> CommitObject(tag.target) in objects))
    && generation <= plan.generation <= generation + 1
  }

  lemma AcceptsExactly(objects: set<Object>, generation: nat, plan: Plan)
    ensures Accepts(objects, generation, plan) <==> Trustworthy(objects, generation, plan)
  {
  }

  /** A checkpoint that was written honestly is never thrown away, whenever the crash came. */
  lemma HonestPlanIsAccepted(d: Disk, start: Disk, plan: Plan)
    requires InFlight(d, start, plan)
    ensures Accepts(d.objects, d.generation, plan)
  {
    PlannedObjectsSurvive(start, plan);
    forall c | c in plan.notes ensures CommitObject(c) in d.objects {
      OnTheChain(plan.head, c);
    }
  }

  /** The plan's own targets are among what the finished state needs. */
  lemma PlannedObjectsSurvive(start: Disk, plan: Plan)
    requires WellPlanned(start, plan)
    ensures ChainObjects(plan.head) <= FinalObjects(start, plan)
    ensures forall ref :: ref in plan.tags && plan.tags[ref].Some? ==>
      TagObjects(plan.tags[ref].value) <= FinalObjects(start, plan)
  {
    var tags := Applied(start.Tags(), plan.tags);
    forall ref | ref in plan.tags && plan.tags[ref].Some?
      ensures TagObjects(plan.tags[ref].value) <= FinalObjects(start, plan)
    {
      assert ref in tags && tags[ref] == plan.tags[ref].value;
    }
  }

  lemma HiddenByPlan(packed: Tags, loose: Tags, gone: set<string>, changed: TagPlan)
    requires gone <= changed.Keys
    ensures packed + (loose - gone) - changed.Keys == packed + loose - changed.Keys
  {
  }

  // -- the writes of `_finish_forget`, one by one ------------------------

  /** One write that reaches the disk while a forget is finished. */
  datatype Write =
    | SetGeneration(generation: nat) | SetHead(target: Option<Commit>)
    | ClearNotes | FileNote(commit: Commit, words: string)
    | Unlink(ref: string) | ReplacePacked(changed: TagPlan)
    | DeleteFile(path: Path) | WriteIndex(key: string)
    | PackRefs | DeleteObject(lost: Object) | DeleteCheckpoint

  function Do(d: Disk, write: Write): Disk {
    match write
    case SetGeneration(generation) => d.(generation := generation)
    case SetHead(target) => d.(head := target)
    case ClearNotes => d.(notes := map[])
    case FileNote(commit, words) => d.(notes := d.notes[commit := words])
    case Unlink(ref) => d.(loose := d.loose - {ref})
    case ReplacePacked(changed) => d.(packed := Applied(d.packed, changed))
    case DeleteFile(path) => d.(worktree := d.worktree - {path})
    case WriteIndex(key) => d.(index := Without(d.index, key))
    case PackRefs => d.(packed := d.packed + d.loose, loose := map[])
    case DeleteObject(lost) => d.(objects := d.objects - {lost})
    case DeleteCheckpoint => d.(checkpoint := None)
  }

  function DoAll(d: Disk, writes: seq<Write>): Disk {
    if writes == [] then d else Do(DoAll(d, writes[..|writes| - 1]), writes[|writes| - 1])
  }

  lemma OneWriteMore(d: Disk, writes: seq<Write>, write: Write)
    ensures DoAll(d, writes + [write]) == Do(DoAll(d, writes), write)
  {
    assert (writes + [write])[..|writes|] == writes;
  }

  lemma OneWrite(d: Disk, write: Write)
    ensures DoAll(d, [write]) == Do(d, write)
  {
    assert [write][..0] == [];
    assert DoAll(d, [write][..0]) == d;
  }

  /** Every loose ref of the mapping gone, the packed file is replaced. */
  lemma TagsReplaced(d: Disk, writes: seq<Write>, changed: TagPlan)
    requires AllUnlinks(writes, changed) && DoAll(d, writes).loose.Keys !! changed.Keys
    ensures IsTagsDone(writes + [ReplacePacked(changed)], d, changed)
    ensures DoAll(d, writes + [ReplacePacked(changed)]) == Do(DoAll(d, writes), ReplacePacked(changed))
  {
    var longer := writes + [ReplacePacked(changed)];
    assert longer[..|longer| - 1] == writes;
    OneWriteMore(d, writes, ReplacePacked(changed));
  }

  lemma PackedThenPruned(d: Disk, writes: seq<Write>, spared: set<Object>)
    requires AllPrunes(writes, spared)
    ensures IsCollection([PackRefs] + writes, spared)
    ensures DoAll(d, [PackRefs] + writes) == DoAll(Do(d, PackRefs), writes)
  {
    assert ([PackRefs] + writes)[1..] == writes;
    DoneInTurn(d, [PackRefs], writes);
    OneWrite(d, PackRefs);
  }

  lemma SealedIs(writes: seq<Write>, spared: set<Object>)
    requires IsCollection(writes, spared) && writes != []
    ensures IsSealed(writes + [DeleteCheckpoint], spared)
  {
    assert (writes + [DeleteCheckpoint])[..|writes|] == writes;
  }

  lemma {:induction false} DoneInTurn(d: Disk, a: seq<Write>, b: seq<Write>)
    ensures DoAll(d, a + b) == DoAll(DoAll(d, a), b)
  {
    if b == [] {
      assert a + b == a;
    } else {
      DoneInTurn(d, a, b[..|b| - 1]);
      assert (a + b)[..|a + b| - 1] == a + b[..|b| - 1];
    }
  }

  /** What one `_finish_forget` wrote, part by part; the last part may be cut short. */
  datatype Script = Script(refs: seq<Write>, notes: seq<Write>, tags: seq<Write>, index: seq<Write>, end: seq<Write>)
  {
    function All(): seq<Write> { refs + notes + tags + index + end }
  }

  predicate IsRefsPart(writes: seq<Write>, plan: Plan) {
    || writes == [] || writes == [SetGeneration(plan.generation)]
    || writes == [SetGeneration(plan.generation), SetHead(plan.head)]
  }

  predicate IsNotesPart(writes: seq<Write>) {
    writes != [] ==> writes[0].ClearNotes? && forall k :: 1 <= k < |writes| ==> writes[k].FileNote?
  }

  predicate AllUnlinks(writes: seq<Write>, changed: TagPlan) {
    forall k :: 0 <= k < |writes| ==> writes[k].Unlink? && writes[k].ref in changed
  }

  /** Loose refs first; the packed file only once none of those the plan is about is left. */
  predicate IsTagsPart(writes: seq<Write>, d: Disk, changed: TagPlan) {
    AllUnlinks(writes, changed) || IsTagsDone(writes, d, changed)
  }

  predicate IsTagsDone(writes: seq<Write>, d: Disk, changed: TagPlan) {
    && writes != [] && writes[|writes| - 1] == ReplacePacked(changed)
    && AllUnlinks(writes[..|writes| - 1], changed)
    && DoAll(d, writes[..|writes| - 1]).loose.Keys !! changed.Keys
  }

  predicate IsIndexPart(writes: seq<Write>) {
    forall k :: 0 <= k < |writes| ==> writes[k].DeleteFile? || writes[k].WriteIndex?
  }

  predicate IsCollection(writes: seq<Write>, spared: set<Object>) {
    writes != [] ==> writes[0].PackRefs? && AllPrunes(writes[1..], spared)
  }

  predicate AllPrunes(writes: seq<Write>, spared: set<Object>) {
    forall k :: 0 <= k < |writes| ==> writes[k].DeleteObject? && writes[k].lost !in spared
  }

  /** The collection, and last of all the checkpoint. */
  predicate IsEnd(writes: seq<Write>, spared: set<Object>) {
    IsCollection(writes, spared) || IsSealed(writes, spared)
  }

  predicate IsSealed(writes: seq<Write>, spared: set<Object>) {
    && |writes| > 1 && writes[|writes| - 1].DeleteCheckpoint?
    && IsCollection(writes[..|writes| - 1], spared)
  }

  /** The disk once a script has been written. */
  function Wrote(s: Script, d: Disk): Disk {
    DoAll(DoAll(DoAll(DoAll(DoAll(d, s.refs), s.notes), s.tags), s.index), s.end)
  }

  lemma WroteIsAll(s: Script, d: Disk)
    ensures Wrote(s, d) == DoAll(d, s.All())
  {
    DoneInTurn(d, s.refs, s.notes);
    DoneInTurn(d, s.refs + s.notes, s.tags);
    DoneInTurn(d, s.refs + s.notes + s.tags, s.index);
    DoneInTurn(d, s.refs + s.notes + s.tags + s.index, s.end);
  }

  /** Descriptions, tags and index in their order, from a disk whose HEAD has moved. */
  predicate RestInOrder(s: Script, refs: Disk, plan: Plan) {
    var notes := DoAll(refs, s.notes);
    && IsNotesPart(s.notes) && IsTagsPart(s.tags, notes, plan.tags) && IsIndexPart(s.index)
    && (s.tags != [] ==> s.notes != [] && notes.notes == plan.notes)
    && (s.index != [] ==> IsTagsDone(s.tags, notes, plan.tags))
  }

  /** The order every reader can rely on: no part begins before the one ahead of it is done. */
  predicate InOrder(s: Script, d: Disk, plan: Plan) {
    var refs := DoAll(d, s.refs);
    && IsRefsPart(s.refs, plan) && RestInOrder(s, refs, plan) && IsEnd(s.end, ChainObjects(plan.head))
    && (s.notes != [] ==> |s.refs| == 2)
    && (s.end != [] ==> IsTagsDone(s.tags, DoAll(refs, s.notes), plan.tags))
  }

  lemma Ends(s: Script, d: Disk, plan: Plan, writes: seq<Write>)
    requires s.end == [] && InOrder(s, d, plan) && IsTagsDone(s.tags, DoAll(DoAll(d, s.refs), s.notes), plan.tags)
    requires IsEnd(writes, ChainObjects(plan.head))
    ensures InOrder(s.(end := writes), d, plan) && Wrote(s.(end := writes), d) == DoAll(Wrote(s, d), writes)
  {
  }

  lemma SparedLess(writes: seq<Write>, spared: set<Object>, fewer: set<Object>)
    requires fewer <= spared
    ensures IsCollection(writes, spared) ==> IsCollection(writes, fewer)
  {
  }

  // -- the store ---------------------------------------------------------

  class HistoryStore {
    var head: Option<Commit>
    var notes: Notes
    var packed: Tags
    var loose: Tags
    var index: Files
    var worktree: Files
    var objects: set<Object>
    var generation: nat
    var checkpoint: Option<Plan>
    var life: Option<nat>

    ghost function OnDisk(): Disk
      reads this
    {
      Disk(head, notes, packed, loose, index, worktree, objects, generation, checkpoint)
    }

    function Tags(): Tags
      reads this
    {
      packed + loose
    }

    /** Whether the process lives to make one more disk write. */
    method Survive() returns (alive: bool)
      modifies this`life
      ensures old(life).None? ==> alive && life.None?
    {
      if life.None? {
        return true;
      }
      if life.value == 0 {
        return false;
      }
      life := Some(life.value - 1);
      return true;
    }

    // -- the steps of `_finish_forget` -----------------------------------

    /** Deletes the notes ref, then files every description again. */
    method RewriteNotes(targets: Notes) returns (done: bool, ghost writes: seq<Write>)
      modifies this`notes, this`life
      ensures done ==> notes == targets && writes != []
      ensures OnDisk() == DoAll(old(OnDisk()), writes) && IsNotesPart(writes)
      ensures old(life).None? ==> done && life.None?
    {
      writes := [];
      var alive := Survive();
      if !alive { return false, writes; }
      notes := map[];
      writes := [ClearNotes];
      var todo := targets.Keys;
      while todo != {}
        invariant todo <= targets.Keys
        invariant notes == targets - todo
        invariant OnDisk() == DoAll(old(OnDisk()), writes) && IsNotesPart(writes) && writes != []
        invariant old(life).None? ==> life.None?
      {
        var c :| c in todo;
        alive := Survive();
        if !alive { return false, writes; }
        notes := notes[c := targets[c]];
        OneWriteMore(old(OnDisk()), writes, FileNote(c, targets[c]));
        writes := writes + [FileNote(c, targets[c])];
        todo := todo - {c};
      }
      assert targets - {} == targets;
      return true, writes;
    }

    method UnlinkLoose(refs: set<string>) returns (done: bool, ghost gone: set<string>, ghost writes: seq<Write>)
      modifies this`loose, this`life
      ensures gone <= refs && loose == old(loose) - gone
      ensures OnDisk() == DoAll(old(OnDisk()), writes)
      ensures forall k :: 0 <= k < |writes| ==> writes[k].Unlink? && writes[k].ref in refs
      ensures done ==> gone == refs
      ensures old(life).None? ==> done && life.None?
    {
      var todo := refs;
      gone, writes := {}, [];
      while todo != {}
        invariant todo <= refs && gone == refs - todo
        invariant loose == old(loose) - gone
        invariant OnDisk() == DoAll(old(OnDisk()), writes)
        invariant forall k :: 0 <= k < |writes| ==> writes[k].Unlink? && writes[k].ref in refs
        invariant old(life).None? ==> life.None?
      {
        var ref :| ref in todo;
        var alive := Survive();
        if !alive { return false, gone, writes; }
        loose := loose - {ref};
        OneWriteMore(old(OnDisk()), writes, Unlink(ref));
        todo, gone, writes := todo - {ref}, gone + {ref}, writes + [Unlink(ref)];
      }
      return true, gone, writes;
    }

    /** Unlinks every loose ref of the mapping, then replaces the packed file. */
    method RewriteTags(changed: TagPlan) returns (done: bool, ghost writes: seq<Write>)
      modifies this`packed, this`loose, this`life
      ensures OnDisk() == DoAll(old(OnDisk()), writes) && IsTagsPart(writes, old(OnDisk()), changed)
      ensures done ==> IsTagsDone(writes, old(OnDisk()), changed)
      ensures Tags() - changed.Keys == old(Tags()) - changed.Keys
      ensures done ==> Tags() == Applied(old(Tags()), changed)
      ensures old(life).None? ==> done && life.None?
    {
      ghost var gone;
      done, gone, writes := UnlinkLoose(changed.Keys);
      HiddenByPlan(packed, old(loose), gone, changed);
      if !done { return false, writes; }
      AppliedUnderLoose(packed, old(loose), changed);
      TagsReplaced(old(OnDisk()), writes, changed);
      done := ReplacePackedFile(changed);
      if !done { return false, writes; }
      return true, writes + [ReplacePacked(changed)];
    }

    method ReplacePackedFile(changed: TagPlan) returns (done: bool)
      modifies this`packed, this`life
      ensures packed == if done then Applied(old(packed), changed) else old(packed)
      ensures old(life).None? ==> done && life.None?
    {
      done := Survive();
      if done { packed := Applied(packed, changed); }
    }

    method DropFile(path: Path) returns (done: bool)
      modifies this`worktree, this`life
      ensures worktree == if done then old(worktree) - {path} else old(worktree)
      ensures old(life).None? ==> done && life.None?
    {
      done := Survive();
      if done { worktree := worktree - {path}; }
    }

    method DropPaths(key: string) returns (done: bool)
      modifies this`index, this`life
      ensures index == if done then Without(old(index), key) else old(index)
      ensures old(life).None? ==> done && life.None?
    {
      done := Survive();
      if done { index := Without(index, key); }
    }

    /** Two files off the disk, then the index written without them. */
    method DropFromIndex(key: string) returns (done: bool, ghost writes: seq<Write>)
      modifies this`index, this`worktree, this`life
      ensures OnDisk() == DoAll(old(OnDisk()), writes) && IsIndexPart(writes)
      ensures Without(index, key) == Without(old(index), key)
      ensures Without(worktree, key) == Without(old(worktree), key)
      ensures done ==> index == Without(old(index), key) && worktree == Without(old(worktree), key)
      ensures old(life).None? ==> done && life.None?
    {
      writes := [];
      done := DropFile(State(key));
      if !done { return; }
      OneWriteMore(old(OnDisk()), [], DeleteFile(State(key)));
      writes := [DeleteFile(State(key))];
      assert OnDisk() == DoAll(old(OnDisk()), writes);
      done := DropFile(Meta(key));
      if !done { return; }
      OneWriteMore(old(OnDisk()), writes, DeleteFile(Meta(key)));
      writes := writes + [DeleteFile(Meta(key))];
      assert OnDisk() == DoAll(old(OnDisk()), writes);
      done := DropPaths(key);
      if !done { return; }
      OneWriteMore(old(OnDisk()), writes, WriteIndex(key));
      writes := writes + [WriteIndex(key)];
    }

    /** Packs the refs and deletes, one by one, what neither a ref nor the index needs. */
    method GarbageCollect() returns (done: bool, ghost writes: seq<Write>)
      modifies this`objects, this`packed, this`loose, this`life
      ensures OnDisk() == DoAll(old(OnDisk()), writes)
      ensures IsCollection(writes, Needed(head, Tags(), index)) && (done ==> writes != [])
      ensures Tags() == old(Tags())
      ensures old(objects) * Needed(head, Tags(), index) <= objects <= old(objects)
      ensures done ==> objects == old(objects) * Needed(head, Tags(), index)
      ensures done ==> packed == old(Tags()) && loose == map[]
      ensures old(life).None? ==> done && life.None?
    {
      writes := [];
      var toPrune := objects - Needed(head, Tags(), index);
      done := PackAllRefs();
      if !done { return; }
      ghost var prunes;
      done, prunes := PruneAll(toPrune);
      PackedThenPruned(old(OnDisk()), prunes, Needed(head, Tags(), index));
      writes := [PackRefs] + prunes;
    }

    method PackAllRefs() returns (done: bool)
      modifies this`packed, this`loose, this`life
      ensures Tags() == old(Tags())
      ensures if done then packed == old(Tags()) && loose == map[] else packed == old(packed) && loose == old(loose)
      ensures old(life).None? ==> done && life.None?
    {
      done := Survive();
      if done {
        packed, loose := packed + loose, map[];
        assert packed + loose == packed;
      }
    }

    /** Deletes one object after another. */
    method PruneAll(toPrune: set<Object>) returns (done: bool, ghost writes: seq<Write>)
      modifies this`objects, this`life
      ensures old(objects) - toPrune <= objects <= old(objects) && (done ==> objects == old(objects) - toPrune)
      ensures OnDisk() == DoAll(old(OnDisk()), writes)
      ensures forall spared :: spared !! toPrune ==> AllPrunes(writes, spared)
      ensures old(life).None? ==> done && life.None?
    {
      writes := [];
      var todo := toPrune;
      while todo != {}
        invariant todo <= toPrune
        invariant objects == old(objects) - (toPrune - todo)
        invariant OnDisk() == DoAll(old(OnDisk()), writes)
        invariant forall k :: 0 <= k < |writes| ==> writes[k].DeleteObject? && writes[k].lost in toPrune
        invariant old(life).None? ==> life.None?
      {
        var o :| o in todo;
        var alive := Survive();
        if !alive { return false, writes; }
        objects := objects - {o};
        OneWriteMore(old(OnDisk()), writes, DeleteObject(o));
        writes := writes + [DeleteObject(o)];
        todo := todo - {o};
      }
      return true, writes;
    }

    /** Notes, tags, index: what follows HEAD. */
    method MoveTheRest(plan: Plan) returns (done: bool, ghost s: Script)
      modifies this`notes, this`packed, this`loose, this`index, this`worktree, this`life
      ensures Tags() - plan.tags.Keys == old(Tags()) - plan.tags.Keys
      ensures Without(index, plan.key) == Without(old(index), plan.key)
      ensures Without(worktree, plan.key) == Without(old(worktree), plan.key)
      ensures done ==> notes == plan.notes && Tags() == Applied(old(Tags()), plan.tags)
      ensures done ==> index == Without(old(index), plan.key) && worktree == Without(old(worktree), plan.key)
      ensures s.refs == [] && s.end == [] && RestInOrder(s, old(OnDisk()), plan) && OnDisk() == Wrote(s, old(OnDisk()))
      ensures done ==> IsTagsDone(s.tags, DoAll(old(OnDisk()), s.notes), plan.tags)
      ensures old(life).None? ==> done && life.None?
    {
      s := Script([], [], [], [], []);
      ghost var writes;
      done, writes := RewriteNotes(plan.notes);
      s := s.(notes := writes);
      if !done { return; }
      done, writes := RewriteTags(plan.tags);
      s := s.(tags := writes);
      if !done { return; }
      done, writes := DropFromIndex(plan.key);
      s := s.(index := writes);
    }

    method MoveHead(plan: Plan) returns (done: bool, ghost writes: seq<Write>)
      modifies this`generation, this`head, this`life
      ensures OnDisk() == DoAll(old(OnDisk()), writes) && IsRefsPart(writes, plan)
      ensures done <==> |writes| == 2
      ensures generation == old(generation) || generation == plan.generation
      ensures done ==> generation == plan.generation && head == plan.head
      ensures old(life).None? ==> done && life.None?
    {
      writes := [];
      done := Survive();
      if !done { return; }
      generation := plan.generation;
      OneWriteMore(old(OnDisk()), [], SetGeneration(plan.generation));
      writes := [SetGeneration(plan.generation)];
      done := Survive();
      if !done { return; }
      head := plan.head;
      OneWriteMore(old(OnDisk()), writes, SetHead(plan.head));
      writes := writes + [SetHead(plan.head)];
    }

    /** The generation first, then every ref, then the index. */
    method MoveRefs(plan: Plan) returns (done: bool, ghost s: Script)
      modifies this`generation, this`head, this`notes, this`packed, this`loose, this`index, this`worktree, this`life
      ensures WithinPlan(old(OnDisk()), OnDisk(), plan)
      ensures done ==> generation == plan.generation && head == plan.head && notes == plan.notes
      ensures done ==> Tags() == Applied(old(Tags()), plan.tags)
      ensures done ==> index == Without(old(index), plan.key) && worktree == Without(old(worktree), plan.key)
      ensures s.end == [] && InOrder(s, old(OnDisk()), plan) && OnDisk() == Wrote(s, old(OnDisk()))
      ensures done ==> IsTagsDone(s.tags, DoAll(DoAll(old(OnDisk()), s.refs), s.notes), plan.tags)
      ensures old(life).None? ==> done && life.None?
    {
      ghost var writes;
      done, writes := MoveHead(plan);
      s := Script(writes, [], [], [], []);
      if !done { return; }
      ghost var rest;
      done, rest := MoveTheRest(plan);
      s := rest.(refs := writes);
    }

    /** The collection, and last of all the checkpoint. */
    method CleanUp() returns (done: bool, ghost writes: seq<Write>)
      modifies this`objects, this`packed, this`loose, this`checkpoint, this`life
      ensures Tags() == old(Tags())
      ensures old(objects) * Needed(head, Tags(), index) <= objects <= old(objects)
      ensures done ==> objects == old(objects) * Needed(head, Tags(), index)
      ensures done ==> packed == old(Tags()) && loose == map[]
      ensures checkpoint == if done then None else old(checkpoint)
      ensures OnDisk() == DoAll(old(OnDisk()), writes)
      ensures if done then IsSealed(writes, ChainObjects(head)) else IsCollection(writes, ChainObjects(head))
      ensures old(life).None? ==> done && life.None?
    {
      done, writes := GarbageCollect();
      SparedLess(writes, Needed(head, Tags(), index), ChainObjects(head));
      if !done { return; }
      done := DeleteTheCheckpoint();
      if !done { return; }
      OneWriteMore(old(OnDisk()), writes, DeleteCheckpoint);
      SealedIs(writes, ChainObjects(head));
      writes := writes + [DeleteCheckpoint];
    }

    method DeleteTheCheckpoint() returns (done: bool)
      modifies this`checkpoint, this`life
      ensures checkpoint == if done then None else old(checkpoint)
      ensures old(life).None? ==> done && life.None?
    {
      done := Survive();
      if done { checkpoint := None; }
    }

    /**
     * Moves everything to its planned target, then cleans up. Run from the start
     * by the call that made the plan, and again by every repair. Whatever it wrote,
     * and wherever it was cut short, it wrote in that order.
     */
    method FinishForget(plan: Plan, ghost start: Disk) returns (done: bool, ghost s: Script)
      modifies this
      ensures InFlight(old(OnDisk()), start, plan) ==>
        if done then OnDisk() == Finished(start, plan) else InFlight(OnDisk(), start, plan)
      ensures OnDisk() == Wrote(s, old(OnDisk())) && InOrder(s, old(OnDisk()), plan)
      ensures done ==> IsSealed(s.end, ChainObjects(plan.head))
      ensures old(life).None? ==> done && life.None?
    {
      done, s := MoveRefs(plan);
      ghost var moved := OnDisk();
      if !done {
        if InFlight(old(OnDisk()), start, plan) { StillInFlight(old(OnDisk()), moved, start, plan); }
        return;
      }
      ghost var writes;
      done, writes := CleanUp();
      Ends(s, old(OnDisk()), plan, writes);
      s := s.(end := writes);
      if InFlight(old(OnDisk()), start, plan) {
        StillInFlight(old(OnDisk()), moved, start, plan);
        TargetsReached(old(OnDisk()), moved, start, plan);
        Settled(moved, OnDisk(), start, plan, done);
      }
    }

    /** Takes the dashboard's paths out of the index where HEAD's tree lacks them. */
    method ReconcileIndexWithHead(key: string) returns (done: bool)
      modifies this`index, this`worktree, this`life
      ensures Without(index, key) == Without(old(index), key)
      ensures Without(worktree, key) == Without(old(worktree), key)
      ensures index == if done then old(index) - Stale(old(index), head, key) else old(index)
      ensures done ==> worktree == old(worktree) - Stale(old(index), head, key)
      ensures done ==> forall path :: path in index <==>
        path in old(index) && (path.key == key ==> path in TreeOf(head))
      ensures old(life).None? ==> done && life.None?
    {
      var gone := Stale(index, head, key);
      var todo := gone;
      while todo != {}
        invariant todo <= gone
        invariant index == old(index) && worktree == old(worktree) - (gone - todo)
        invariant old(life).None? ==> life.None?
      {
        var path :| path in todo;
        var alive := Survive();
        if !alive { return false; }
        worktree := worktree - {path};
        todo := todo - {path};
      }
      if gone != {} {
        var alive := Survive();
        if !alive { return false; }
        index := index - gone;
      }
      return true;
    }

    predicate AcceptsCheckpoint(plan: Plan)
      reads this
    {
      Accepts(objects, generation, plan)
    }

    /** What every restart runs first. A plan it cannot accept is thrown away. */
    method RepairPendingForget(ghost start: Disk, ghost plan: Plan) returns (done: bool)
      modifies this
      ensures old(checkpoint).None? ==> done && OnDisk() == old(OnDisk())
      ensures old(checkpoint).Some? && !Trustworthy(old(objects), old(generation), old(checkpoint).value) ==>
        && OnDisk() == old(OnDisk()).(index := index, worktree := worktree, checkpoint := checkpoint)
        && (done ==> checkpoint.None?)
      ensures InFlight(old(OnDisk()), start, plan) ==>
        if done then OnDisk() == Finished(start, plan) else InFlight(OnDisk(), start, plan)
      ensures old(life).None? ==> done && life.None?
    {
      if checkpoint.None? {
        return true;
      }
      ghost var before := OnDisk();
      done := ReconcileIndexWithHead(checkpoint.value.key);
      if InFlight(before, start, plan) {
        StillInFlight(before, OnDisk(), start, plan);
        HonestPlanIsAccepted(OnDisk(), start, plan);
      }
      if !done { return false; }
      AcceptsExactly(objects, generation, checkpoint.value);
      if !AcceptsCheckpoint(checkpoint.value) {
        checkpoint := None;
        return true;
      }
      ghost var script;
      done, script := FinishForget(checkpoint.value, start);
    }

    // -- `_forget`: making the plan --------------------------------------

    /** One commit: dropped where nothing is left in it, else copied onto its rewritten parent. */
    method RewriteOne(c: Commit, parent: Option<Commit>, key: string) returns (place: Option<Commit>, dropped: bool)
      requires parent == Nearest(c.parent, key)
      requires ChainObjects(parent) + Blobs(c.tree) <= objects
      modifies this`objects
      ensures old(objects) <= objects && ChainObjects(place) <= objects
      ensures place == Nearest(Some(c), key)
      ensures dropped <==> !Survives(c, key)
      ensures !dropped ==> place == Some(Rewritten(c, key))
    {
      var tree := Without(c.tree, key);
      if (parent.Some? && parent.value.tree == tree) || (parent.None? && tree == map[]) {
        return parent, true;
      }
      var copy := Commit(tree, parent, c.info);
      objects := objects + {CommitObject(copy)};
      return Some(copy), false;
    }

    /** Rewrites every commit, oldest first, so that a parent is always done before its child. */
    method RewriteHistory(key: string)
      returns (nearest: map<Commit, Option<Commit>>, kept: map<Commit, Commit>, removed: nat)
      requires ChainObjects(head) <= objects
      modifies this`objects
      ensures old(objects) <= objects
      ensures IsNearest(nearest, Chain(head), key, objects) && IsKept(kept, Chain(head), key)
      ensures |kept| + removed == |Chain(head)|
    {
      var walk := Chain(head);
      nearest, kept, removed := map[], map[], 0;
      for i := |walk| downto 0
        invariant old(objects) <= objects
        invariant IsNearest(nearest, walk[i..], key, objects)
        invariant IsKept(kept, walk[i..], key)
        invariant |kept| + removed == |walk| - i
      {
        var c := walk[i];
        OldestFirst(head, i);
        var parent := if c.parent.Some? && c.parent.value in nearest then nearest[c.parent.value] else None;
        ghost var before := objects;
        var place, dropped := RewriteOne(c, parent, key);
        NearestGrows(nearest, walk, i, key, before, objects, place);
        KeptGrows(kept, walk, i, key);
        nearest := nearest[c := place];
        if dropped {
          removed := removed + 1;
        } else {
          kept := kept[c := place.value];
        }
      }
      assert walk[0..] == walk;
    }

    /** Every description on the survivor of its commit; the others go with theirs. */
    method PlannedNotes(kept: map<Commit, Commit>, ghost key: string) returns (targets: Notes)
      requires IsKept(kept, Chain(head), key)
      ensures NotesFollow(head, key, notes, targets)
      ensures forall m :: m in targets ==> m in Chain(Nearest(head, key))
    {
      targets := map[];
      var todo := notes.Keys;
      while todo != {}
        invariant todo <= notes.Keys
        invariant NotesFollow(head, key, notes - todo, targets)
      {
        var old' :| old' in todo;
        if old' in kept {
          NoteFollows(head, key, notes, todo, targets, old');
          targets := targets[kept[old'] := notes[old']];
        }
        todo := todo - {old'};
      }
      assert notes - {} == notes;
      forall m | m in targets ensures m in Chain(Nearest(head, key)) {
        var c :| c in Chain(head) && Survives(c, key) && Rewritten(c, key) == m;
        SurvivorIsOlder(head, c, key);
      }
    }

    /** Where every tag goes. The new tag objects are written now, the refs later. */
    method PlannedTagChanges(nearest: map<Commit, Option<Commit>>, key: string) returns (changed: TagPlan)
      requires IsNearest(nearest, Chain(head), key, objects)
      modifies this`objects
      ensures old(objects) <= objects
      ensures IsTagPlan(changed, Tags(), head, key)
      ensures forall ref :: ref in changed && changed[ref].Some? ==> TagObjects(changed[ref].value) <= objects
    {
      changed := map[];
      var todo := Tags().Keys;
      while todo != {}
        invariant todo <= Tags().Keys && old(objects) <= objects
        invariant IsTagPlan(changed, Tags() - todo, head, key)
        invariant forall ref :: ref in changed && changed[ref].Some? ==> TagObjects(changed[ref].value) <= objects
      {
        var ref :| ref in todo;
        var planned := PlanOneTag(ref, Tags()[ref], nearest, key);
        todo := todo - {ref};
        changed := changed[ref := planned];
      }
      assert Tags() - {} == Tags();
    }

    /** Deleted with its dashboard, or where nothing stands in for its commit; else moved there. */
    method PlanOneTag(ref: string, tag: Tag, nearest: map<Commit, Option<Commit>>, key: string)
      returns (planned: Option<Tag>)
      requires IsNearest(nearest, Chain(head), key, objects)
      modifies this`objects
      ensures old(objects) <= objects
      ensures planned == PlannedTag(ref, tag, head, key)
      ensures planned.Some? ==> TagObjects(planned.value) <= objects
    {
      if Owns(ref, key) {
        return None;
      }
      var moved := if tag.target in nearest then nearest[tag.target] else None;
      if moved.None? {
        return None;
      }
      var copy := tag.(target := moved.value);
      if tag.Annotated? {
        objects := objects + {TagObject(copy)};
      }
      return Some(copy);
    }

    /** Everything `forget` decides before the first ref moves. */
    method PlanForget(key: string) returns (plan: Plan, removed: nat)
      requires Intact(OnDisk())
      modifies this`objects
      ensures old(objects) <= objects && OnDisk() == old(OnDisk()).(objects := objects)
      ensures IsPlan(plan, old(OnDisk()), key)
      ensures WellPlanned(OnDisk(), plan) && Intact(OnDisk())
      ensures removed == |Chain(head)| - |Chain(plan.head)|
    {
      var nearest, kept, gone := RewriteHistory(key);
      var target := if head.None? then None else nearest[head.value];
      var noteTargets := PlannedNotes(kept, key);
      var tagTargets := PlannedTagChanges(nearest, key);
      plan := Plan(key, target, noteTargets, tagTargets, generation + 1);
      removed := gone;
      RewrittenChain(head, key);
      assert Intact(OnDisk()) by { IntactGrows(old(OnDisk()), OnDisk()); }
      KeptCount(kept.Keys, head, key);
    }

    /** Makes the plan and writes it down. Dying in between leaves only a few objects behind. */
    method SignPlan(key: string) returns (signed: bool, ghost start: Disk, plan: Plan, removed: nat)
      requires checkpoint.None? && Intact(OnDisk())
      modifies this`objects, this`checkpoint, this`life
      ensures Planned(old(OnDisk()), start, plan, key)
      ensures if signed then InFlight(OnDisk(), start, plan) else OnDisk() == start
      ensures removed == |Chain(old(head))| - |Chain(plan.head)|
      ensures old(life).None? ==> signed && life.None?
    {
      plan, removed := PlanForget(key);
      start := OnDisk();
      signed := Survive();
      if signed {
        checkpoint := Some(plan);
        FreshCheckpoint(start, OnDisk(), plan);
      }
    }

    /** Removes a dashboard's history for good. Answers how many commits went. */
    method Forget(key: string)
      returns (answer: Outcome<nat>, crashed: bool, ghost start: Disk, ghost plan: Plan)
      requires checkpoint.None? ==> Intact(OnDisk())
      modifies this
      ensures old(checkpoint).Some? ==> answer == Refused(ForgetPending)
      ensures old(checkpoint).None? && !EverHeld(old(head), key) ==> answer == Done(0)
      ensures old(checkpoint).Some? || !EverHeld(old(head), key) ==> OnDisk() == old(OnDisk())
      ensures old(checkpoint).None? && EverHeld(old(head), key) ==>
        && Planned(old(OnDisk()), start, plan, key)
        && (crashed ==> OnDisk() == start || InFlight(OnDisk(), start, plan))
        && (!crashed ==> OnDisk() == Finished(start, plan))
        && (!crashed ==> answer == Done(|Chain(old(head))| - |Chain(plan.head)|))
      ensures old(checkpoint).None? && !crashed ==> NeverHeld(head, key)
      ensures old(checkpoint).None? && NeverHeld(old(head), key) ==> OnDisk() == old(OnDisk())
      ensures old(checkpoint).None? && !NeverHeld(old(head), key) && !crashed ==> head != old(head)
      ensures old(life).None? ==> !crashed
    {
      NeverHeldIs(head, key);
      crashed, start := false, OnDisk();
      plan := Plan(key, None, map[], map[], 0);
      if checkpoint.Some? {
        return Refused(ForgetPending), false, start, plan;
      }
      if !EverHeld(head, key) {
        return Done(0), false, start, plan;
      }
      var removed;
      removed, crashed, start, plan := SignAndFinish(key);
      answer := Done(removed);
      NeverHeldAfter(old(head), key);
    }

    method SignAndFinish(key: string) returns (removed: nat, crashed: bool, ghost start: Disk, ghost plan: Plan)
      requires checkpoint.None? && Intact(OnDisk())
      modifies this
      ensures Planned(old(OnDisk()), start, plan, key)
      ensures if crashed then OnDisk() == start || InFlight(OnDisk(), start, plan)
              else OnDisk() == Finished(start, plan)
      ensures removed == |Chain(old(head))| - |Chain(plan.head)|
      ensures old(life).None? ==> !crashed
    {
      var signed, decided;
      signed, start, decided, removed := SignPlan(key);
      plan, crashed := decided, true;
      if signed {
        var done: bool;
        ghost var script;
        done, script := FinishForget(decided, start);
        crashed := !done;
      }
    }

    // -- the other writes ------------------------------------------------

    /** Writes files into the worktree and stages them. */
    method Stage(files: Files) returns (done: bool)
      requires Intact(OnDisk())
      modifies this`worktree, this`objects, this`index, this`life
      ensures Intact(OnDisk())
      ensures index == old(index) || index == old(index) + files
      ensures done ==> index == old(index) + files && worktree == old(worktree) + files
      ensures old(life).None? ==> done && life.None?
    {
      done := Survive();
      if !done { return; }
      worktree := worktree + files;
      done := Survive();
      if !done { return; }
      objects, index := objects + Blobs(files), index + files;
      Staged(old(OnDisk()), OnDisk(), files);
    }

    /** Records a state. `Done(None)` says HEAD holds it already, or the process died. */
    method WriteSnapshot(key: string, text: string, meta: Option<string>, info: Info)
      returns (answer: Outcome<Option<Commit>>, crashed: bool)
      requires checkpoint.None? ==> Intact(OnDisk())
      modifies this`head, this`worktree, this`objects, this`index, this`life
      ensures checkpoint.Some? ==> answer == Refused(ForgetPending) && OnDisk() == old(OnDisk())
      ensures checkpoint.None? ==> answer.Done? && Intact(OnDisk())
      ensures answer == Done(None) ==> head == old(head) && (crashed || Recorded(TreeOf(head), key, text, meta))
      ensures answer.Done? && answer.value.Some? ==>
        && head == answer.value && head.value == Commit(index, old(head), info)
        && Recorded(head.value.tree, key, text, meta) && !Recorded(TreeOf(old(head)), key, text, meta)
      ensures answer == Done(None) && !crashed ==> index == old(index)
      ensures checkpoint.None? && !crashed ==> Recorded(worktree, key, text, meta)
      ensures forall path: Path :: path.key != key ==> SameAt(index, old(index), path)
      ensures meta.None? ==> SameAt(index, old(index), Meta(key))
      ensures old(life).None? ==> !crashed
    {
      crashed := false;
      if checkpoint.Some? {
        return Refused(ForgetPending), false;
      }
      var mine := Mine(key, text, meta);
      StagedHolds(old(worktree), key, text, meta);
      if Holds(TreeOf(head), key, text, meta) {
        worktree := worktree + mine;
        return Done(None), false;
      }
      answer, crashed := StageAndCommit(mine, info);
      StagedHolds(old(index), key, text, meta);
    }

    method StageAndCommit(files: Files, info: Info) returns (answer: Outcome<Option<Commit>>, crashed: bool)
      requires Intact(OnDisk())
      modifies this`head, this`worktree, this`objects, this`index, this`life
      ensures Intact(OnDisk())
      ensures index == old(index) || index == old(index) + files
      ensures if crashed then answer == Done(None) && head == old(head)
              else index == old(index) + files && head == Some(Commit(index, old(head), info)) && answer == Done(head)
      ensures !crashed ==> worktree == old(worktree) + files
      ensures old(life).None? ==> !crashed
    {
      var done := Stage(files);
      if !done { return Done(None), true; }
      done := Survive();
      if !done { return Done(None), true; }
      answer := CommitIndex(info);
      crashed := false;
    }

    /** What `porcelain.commit` does: the whole index becomes the new HEAD's tree. */
    method CommitIndex(info: Info) returns (answer: Outcome<Option<Commit>>)
      requires Intact(OnDisk())
      modifies this`head, this`objects
      ensures Intact(OnDisk())
      ensures head == Some(Commit(index, old(head), info)) && answer == Done(head)
    {
      head := Some(Commit(index, head, info));
      objects := objects + {CommitObject(head.value)};
      answer := Done(head);
    }

    /** Records that a dashboard is gone: its files leave the index, and the index is committed. */
    method MarkDeleted(key: string, info: Info) returns (answer: Outcome<Option<Commit>>, crashed: bool)
      requires checkpoint.None? ==> Intact(OnDisk())
      modifies this`head, this`worktree, this`objects, this`index, this`life
      ensures checkpoint.Some? ==> answer == Refused(ForgetPending) && OnDisk() == old(OnDisk())
      ensures checkpoint.None? ==> answer.Done? && Intact(OnDisk())
      ensures answer == Done(None) ==> head == old(head) && (crashed || State(key) !in TreeOf(head))
      ensures answer.Done? && answer.value.Some? ==>
        && head == answer.value && head.value == Commit(index, old(head), info)
        && State(key) !in head.value.tree && (Meta(key) in TreeOf(old(head)) ==> Meta(key) !in head.value.tree)
        && State(key) in TreeOf(old(head)) && State(key) !in worktree
      ensures answer == Done(None) && !crashed ==> OnDisk() == old(OnDisk())
      ensures forall path: Path :: path.key != key ==> SameAt(index, old(index), path)
      ensures Meta(key) !in TreeOf(old(head)) ==> SameAt(index, old(index), Meta(key))
      ensures old(life).None? ==> !crashed
    {
      crashed := false;
      if checkpoint.Some? {
        return Refused(ForgetPending), false;
      }
      if State(key) !in TreeOf(head) {
        return Done(None), false;
      }
      var paths := if Meta(key) in TreeOf(head) then {State(key), Meta(key)} else {State(key)};
      var done := Unstage(paths);
      if !done { return Done(None), true; }
      done := Survive();
      if !done { return Done(None), true; }
      answer := CommitIndex(info);
    }

    /** Takes files out of the index and off the disk. */
    method Unstage(paths: set<Path>) returns (done: bool)
      requires Intact(OnDisk())
      modifies this`worktree, this`index, this`life
      ensures Intact(OnDisk())
      ensures index == if done then old(index) - paths else old(index)
      ensures worktree == if done then old(worktree) - paths else old(worktree)
      ensures old(life).None? ==> done && life.None?
    {
      done := Survive();
      if !done { return; }
      index, worktree := index - paths, worktree - paths;
      assert Blobs(index) <= Blobs(old(index));
    }

    /** Files a note on the commit a revision names, or takes it away where the words come to nothing. */
    method SetDescription(revision: Option<Commit>, words: string) returns (answer: Outcome<bool>)
      modifies this`notes
      ensures checkpoint.Some? ==> answer == Refused(ForgetPending) && notes == old(notes)
      ensures checkpoint.None? ==> answer == Done(revision.Some? && CommitObject(revision.value) in objects)
      ensures answer == Done(false) ==> notes == old(notes)
      ensures answer == Done(true) ==>
        notes ==
          if Strip(words) == "" then old(notes) - {revision.value}
          else old(notes)[revision.value := Strip(words)]
    {
      if checkpoint.Some? {
        return Refused(ForgetPending);
      }
      if revision.None? || CommitObject(revision.value) !in objects {
        return Done(false);
      }
      var body := Strip(words);
      notes := if body == "" then notes - {revision.value} else notes[revision.value := body];
      return Done(true);
    }

    /**
     * Names a commit, unless git could not hold the name beside the others, there is no
     * such commit, or - `accepted` - git takes no name like that at all.
     */
    method CreateVersion(name: string, accepted: bool, words: string, made: int, target: Commit)
      returns (answer: Outcome<Tag>)
      requires checkpoint.None? ==> Intact(OnDisk())
      modifies this`loose, this`objects
      ensures checkpoint.None? ==> Intact(OnDisk())
      ensures answer.Refused? ==> OnDisk() == old(OnDisk())
      ensures answer == Refused(ForgetPending) <==> checkpoint.Some?
      ensures answer == Refused(NameTaken) <==> checkpoint.None? && Collides(name, old(Tags()).Keys)
      ensures answer == Refused(UnknownRevision) <==>
        checkpoint.None? && !Collides(name, old(Tags()).Keys) && !(ChainObjects(Some(target)) <= old(objects))
      ensures answer == Refused(NameUnusable) <==>
        (&& checkpoint.None? && !Collides(name, old(Tags()).Keys)
         && ChainObjects(Some(target)) <= old(objects) && !accepted)
      ensures answer.Done? <==>
        (&& checkpoint.None? && !Collides(name, old(Tags()).Keys)
         && ChainObjects(Some(target)) <= old(objects) && accepted)
      ensures answer.Done? ==> Tags() == old(Tags())[name := Annotated(words, made, target)] && name !in old(Tags())
    {
      if checkpoint.Some? {
        return Refused(ForgetPending);
      }
      var taken := RefuseCollidingName(name, Tags().Keys);
      if taken {
        return Refused(NameTaken);
      }
      if !(ChainObjects(Some(target)) <= objects) {
        return Refused(UnknownRevision);
      }
      if !accepted {
        return Refused(NameUnusable);
      }
      answer := Done(Annotated(words, made, target));
      WriteTag(name, answer.value);
    }

    method WriteTag(name: string, tag: Tag)
      requires checkpoint.None? && Intact(OnDisk()) && ChainObjects(Some(tag.target)) <= objects && tag.Annotated?
      modifies this`loose, this`objects
      ensures Intact(OnDisk())
      ensures Tags() == old(Tags())[name := tag]
    {
      objects := objects + {TagObject(tag)};
      loose := loose[name := tag];
      assert Tags() == old(Tags())[name := tag];
    }

    /** Takes one dashboard's version away: the ref, never the commit. */
    method RemoveVersion(key: string, name: string) returns (answer: Outcome<Tag>)
      requires checkpoint.None? ==> Intact(OnDisk())
      modifies this`loose, this`packed
      ensures checkpoint.None? ==> Intact(OnDisk())
      ensures answer == Refused(ForgetPending) <==> checkpoint.Some?
      ensures answer == Refused(UnknownVersion) <==>
        checkpoint.None? && !(Owns(name, key) && name in old(Tags()))
      ensures answer.Refused? ==> OnDisk() == old(OnDisk())
      ensures answer.Done? <==> checkpoint.None? && Owns(name, key) && name in old(Tags())
      ensures answer.Done? ==> answer.value == old(Tags())[name]
      ensures answer.Done? ==> Tags() == old(Tags()) - {name}
    {
      if checkpoint.Some? {
        return Refused(ForgetPending);
      }
      if !Owns(name, key) || name !in Tags() {
        return Refused(UnknownVersion);
      }
      answer := Done(Tags()[name]);
      loose, packed := loose - {name}, packed - {name};
      assert Tags() == old(Tags()) - {name};
    }

    // -- any number of crashes, and writes in between --------------------

    /**
     * A forget was cut short. Whatever follows - restarts that crash again,
     * saves, descriptions and versions that all refuse - the first repair that
     * gets through leaves the disk exactly as an uninterrupted forget would have.
     */
    method Endure(events: seq<Event>, ghost start: Disk, ghost plan: Plan) returns (finished: bool)
      requires InFlight(OnDisk(), start, plan)
      modifies this
      ensures if finished then OnDisk() == Finished(start, plan) else InFlight(OnDisk(), start, plan)
      ensures Restart(None) in events ==> finished
    {
      for i := 0 to |events|
        invariant InFlight(OnDisk(), start, plan)
        invariant Restart(None) !in events[..i]
      {
        match events[i]
        case Restart(lives) =>
          life := lives;
          finished := RepairPendingForget(start, plan);
          if finished { return true; }
        case Save(key, text, meta, info) =>
          var _, _ := WriteSnapshot(key, text, meta, info);
        case Delete(key, info) =>
          var _, _ := MarkDeleted(key, info);
        case Describe(commit, words) =>
          var _ := SetDescription(Some(commit), words);
        case Name(name, accepted, words, made, commit) =>
          var _ := CreateVersion(name, accepted, words, made, commit);
        case Unname(key, name) =>
          var _ := RemoveVersion(key, name);
        case Begin(key) =>
          var _, _, _, _ := Forget(key);
      }
      return false;
    }
  }

  /** What may happen to a store while a checkpoint stands. */
  datatype Event =
    | Restart(life: Option<nat>)
    | Save(key: string, text: string, meta: Option<string>, info: Info)
    | Delete(key: string, info: Info)
    | Describe(commit: Commit, words: string)
    | Name(name: string, accepted: bool, words: string, made: int, commit: Commit)
    | Unname(key: string, name: string)
    | Begin(key: string)

  function Mine(key: string, text: string, meta: Option<string>): Files {
    if meta.None? then map[State(key) := text] else map[State(key) := text, Meta(key) := meta.value]
  }

  /** The paths of a dashboard that are staged and that HEAD's tree lacks. */
  function Stale(index: Files, head: Option<Commit>, key: string): set<Path> {
    set path | path in FilesOfKey(key) && path in index && path !in TreeOf(head)
  }

  /** What is staged is held, and nobody else's files are touched. */
  lemma StagedHolds(index: Files, key: string, text: string, meta: Option<string>)
    ensures Holds(index + Mine(key, text, meta), key, text, meta)
    ensures forall path: Path :: path.key != key ==> SameAt(index + Mine(key, text, meta), index, path)
    ensures meta.None? ==> SameAt(index + Mine(key, text, meta), index, Meta(key))
  {
  }

  predicate Holds(files: Files, key: string, text: string, meta: Option<string>) {
    At(files, State(key)) == Some(text) && (meta.None? || At(files, Meta(key)) == meta)
  }

  /** The state is recorded, and its metadata where it has any. */
  ghost predicate Recorded(files: Files, key: string, text: string, meta: Option<string>) {
    && State(key) in files && files[State(key)] == text
    && (meta.Some? ==> Meta(key) in files && files[Meta(key)] == meta.value)
  }

  /** No commit of the history holds the dashboard's state. */
  ghost predicate NeverHeld(head: Option<Commit>, key: string) {
    forall c :: c in Chain(head) ==> State(key) !in c.tree
  }

  lemma NeverHeldIs(head: Option<Commit>, key: string)
    ensures NeverHeld(head, key) <==> !EverHeld(head, key)
  {
    EverHeldExactly(head, key);
  }

  /** Once rewritten, it is in none; and if it was in one, HEAD is another commit. */
  lemma NeverHeldAfter(head: Option<Commit>, key: string)
    ensures NeverHeld(Nearest(head, key), key)
    ensures !NeverHeld(head, key) ==> Nearest(head, key) != head
  {
    NeverHeldIs(head, key);
    if EverHeld(head, key) {
      ForgetMovesHead(head, key);
    }
    NearestIsUntouched(head, key);
  }

  /** A disk on which a forget has made its plan: only objects were added. */
  ghost predicate Planned(before: Disk, start: Disk, plan: Plan, key: string) {
    && IsPlan(plan, before, key)
    && before.objects <= start.objects && start == before.(objects := start.objects)
    && WellPlanned(start, plan) && Intact(start)
  }

  lemma FreshCheckpoint(start: Disk, d: Disk, plan: Plan)
    requires WellPlanned(start, plan) && d == start.(checkpoint := Some(plan))
    ensures InFlight(d, start, plan)
  {
  }

  lemma Staged(before: Disk, after: Disk, mine: Files)
    requires Intact(before)
    requires after == before.(worktree := after.worktree, index := before.index + mine,
                              objects := before.objects + Blobs(mine))
    ensures Intact(after)
  {
  }

  lemma NoteFollows(head: Option<Commit>, key: string, notes: Notes, todo: set<Commit>, targets: Notes, c: Commit)
    requires todo <= notes.Keys && NotesFollow(head, key, notes - todo, targets)
    requires c in todo && c in Chain(head) && Survives(c, key)
    ensures NotesFollow(head, key, notes - (todo - {c}), targets[Rewritten(c, key) := notes[c]])
  {
    var filed, longer := notes - (todo - {c}), targets[Rewritten(c, key) := notes[c]];
    forall x | x in Chain(head) && Survives(x, key) ensures Note(longer, Rewritten(x, key)) == Note(filed, x) {
      NoteOfOne(head, key, notes, todo, targets, c, x);
    }
    assert forall m :: m in longer ==> m == Rewritten(c, key) || m in targets;
  }

  lemma NoteOfOne(head: Option<Commit>, key: string, notes: Notes, todo: set<Commit>, targets: Notes, c: Commit,
                  x: Commit)
    requires todo <= notes.Keys && c in todo && c in Chain(head) && Survives(c, key)
    requires x in Chain(head) && Survives(x, key) && Note(targets, Rewritten(x, key)) == Note(notes - todo, x)
    ensures Note(targets[Rewritten(c, key) := notes[c]], Rewritten(x, key)) == Note(notes - (todo - {c}), x)
  {
    if x != c && Rewritten(x, key) == Rewritten(c, key) {
      SurvivorsStayApart(head, x, c, key);
    }
  }

  ghost predicate IsTagPlan(changed: TagPlan, tags: Tags, head: Option<Commit>, key: string) {
    && changed.Keys == tags.Keys
    && forall ref :: ref in changed ==> changed[ref] == PlannedTag(ref, tags[ref], head, key)
  }

  /** The plan `forget` makes for one dashboard on one disk. */
  ghost predicate IsPlan(plan: Plan, d: Disk, key: string) {
    && plan.key == key
    && plan.head == Nearest(d.head, key)
    && NotesFollow(d.head, key, d.notes, plan.notes)
    && IsTagPlan(plan.tags, d.Tags(), d.head, key)
    && plan.generation == d.generation + 1
  }

  /** Nothing a ref or the index names is missing from the store. */
  ghost predicate Intact(d: Disk) {
    Needed(d.head, d.Tags(), d.index) <= d.objects
  }

  lemma IntactGrows(before: Disk, after: Disk)
    requires Intact(before) && before.objects <= after.objects && after == before.(objects := after.objects)
    ensures Intact(after)
  {
  }

  lemma {:induction false} KeptCount(keys: set<Commit>, head: Option<Commit>, key: string)
    requires keys == set c | c in Chain(head) && Survives(c, key)
    ensures |keys| == |Survivors(Chain(head), key)|
    decreases head
  {
    if head.Some? {
      var c := head.value;
      OldestFirst(head, 0);
      assert Chain(head)[1..] == Chain(c.parent);
      KeptCount(keys - {c}, c.parent, key);
    }
  }

  /** `nearest` holds every commit of the walk, at what stands in its place. */
  ghost predicate IsNearest(nearest: map<Commit, Option<Commit>>, walk: seq<Commit>, key: string,
                            objects: set<Object>) {
    && (forall c :: c in nearest <==> c in walk)
    && (forall c :: c in nearest ==> nearest[c] == Nearest(Some(c), key) && ChainObjects(nearest[c]) <= objects)
  }

  /** `kept` holds the commits of the walk that survive, at what they become. */
  ghost predicate IsKept(kept: map<Commit, Commit>, walk: seq<Commit>, key: string) {
    && (forall c :: c in kept <==> c in walk && Survives(c, key))
    && (forall c :: c in kept ==> kept[c] == Rewritten(c, key))
  }

  lemma NearestGrows(nearest: map<Commit, Option<Commit>>, walk: seq<Commit>, i: nat, key: string,
                     before: set<Object>, after: set<Object>, place: Option<Commit>)
    requires i < |walk| && IsNearest(nearest, walk[i + 1..], key, before) && before <= after
    requires place == Nearest(Some(walk[i]), key) && ChainObjects(place) <= after
    ensures IsNearest(nearest[walk[i] := place], walk[i..], key, after)
  {
    assert walk[i..] == [walk[i]] + walk[i + 1..];
  }

  lemma KeptGrows(kept: map<Commit, Commit>, walk: seq<Commit>, i: nat, key: string)
    requires i < |walk| && IsKept(kept, walk[i + 1..], key)
    ensures Survives(walk[i], key) ==> IsKept(kept[walk[i] := Rewritten(walk[i], key)], walk[i..], key)
    ensures !Survives(walk[i], key) ==> IsKept(kept, walk[i..], key)
  {
    assert walk[i..] == [walk[i]] + walk[i + 1..];
  }

  /** What a step of the rewrite may rely on: the parent is done, this commit is not. */
  lemma {:induction false} OldestFirst(head: Option<Commit>, i: nat)
    requires i < |Chain(head)|
    ensures var c := Chain(head)[i];
      && c !in Chain(head)[i + 1..]
      && (c.parent.Some? ==> i + 1 < |Chain(head)| && Chain(head)[i + 1] == c.parent.value)
      && Blobs(c.tree) <= ChainObjects(head)
    decreases head
  {
    ChainFrom(head, i);
    var c := Chain(head)[i];
    assert Chain(head)[i..] == [c] + Chain(c.parent);
    assert Chain(head)[i + 1..] == Chain(c.parent);
    if c in Chain(head)[i + 1..] {
      var j :| i + 1 <= j < |Chain(head)| && Chain(head)[j] == c;
      ChainIsInjective(head, i, j);
    }
    if i > 0 {
      OldestFirst(head.value.parent, i - 1);
    }
  }

  // -- what a finished forget means --------------------------------------

  /** Every other dashboard reads as before: its states, times, messages and descriptions. */
  lemma EveryoneElseKeepsTheirHistory(before: Disk, start: Disk, plan: Plan, other: string)
    requires Planned(before, start, plan, plan.key) && other != plan.key
    ensures var after := Finished(start, plan);
      Rows(Changes(other, after.head), other, after.notes) == Rows(Changes(other, before.head), other, before.notes)
  {
    OthersReadTheSame(before.head, plan.key, other, before.notes, plan.notes);
  }

  /**
   * A version that survives marks a reachable state with the same bytes for every
   * other dashboard; one is dropped only with its dashboard, or where its commit
   * is off the history, or where nothing was left to mark.
   */
  lemma VersionsMarkTheSameBytes(before: Disk, start: Disk, plan: Plan, ref: string)
    requires Planned(before, start, plan, plan.key)
    ensures var after := Finished(start, plan);
      && (ref in after.Tags() ==>
            && !Owns(ref, plan.key) && ref in before.Tags()
            && after.Tags()[ref].(target := before.Tags()[ref].target) == before.Tags()[ref]
            && Reaches(after.head, after.Tags()[ref].target)
            && forall path: Path :: path.key != plan.key ==>
                 SameAt(after.Tags()[ref].target.tree, before.Tags()[ref].target.tree, path))
      && (ref in before.Tags() && ref !in after.Tags() && !Owns(ref, plan.key)
            && Reaches(before.head, before.Tags()[ref].target) ==>
            Without(before.Tags()[ref].target.tree, plan.key) == map[])
  {
    var after := Finished(start, plan);
    assert after.Tags() == Applied(start.Tags(), plan.tags);
    if ref in after.Tags() {
      StandInIsReachable(before.head, before.Tags()[ref].target, plan.key);
    }
  }

  /**
   * Forgotten for good: neither file is in any commit still reachable from HEAD
   * or in the index, no version of the dashboard is left, and the store holds
   * nothing but what the remaining refs and the index need - all of it.
   */
  lemma ForgottenForGood(before: Disk, start: Disk, plan: Plan)
    requires Planned(before, start, plan, plan.key)
    ensures var after := Finished(start, plan);
      && (forall c :: c in Chain(after.head) ==> FilesOfKey(plan.key) !! c.tree.Keys)
      && FilesOfKey(plan.key) !! after.index.Keys
      && (forall ref :: ref in after.Tags() ==> FilesOfKey(plan.key) !! after.Tags()[ref].target.tree.Keys)
      && after.objects == Needed(after.head, after.Tags(), after.index)
      && Intact(after)
      && after.generation == before.generation + 1
  {
    NothingLeftBehind(before.head, plan.key);
    TagsOfFinished(before, start, plan);
    StagedIsThere(start, plan.key);
    OnlyNeededLeft(start, plan);
    FinishedIsIntact(start, plan);
  }

  lemma TagsOfFinished(before: Disk, start: Disk, plan: Plan)
    requires Planned(before, start, plan, plan.key)
    ensures forall ref :: ref in Finished(start, plan).Tags() ==>
      FilesOfKey(plan.key) !! Finished(start, plan).Tags()[ref].target.tree.Keys
      && TagObjects(Finished(start, plan).Tags()[ref]) <= start.objects
  {
    forall ref | ref in Finished(start, plan).Tags()
      ensures FilesOfKey(plan.key) !! Finished(start, plan).Tags()[ref].target.tree.Keys
      ensures TagObjects(Finished(start, plan).Tags()[ref]) <= start.objects
    {
      TagOfFinished(before, start, plan, ref);
    }
  }

  lemma StagedIsThere(start: Disk, key: string)
    requires Intact(start)
    ensures Blobs(Without(start.index, key)) <= start.objects
  {
    assert Blobs(Without(start.index, key)) <= Blobs(start.index);
  }

  lemma FinishedIsIntact(start: Disk, plan: Plan)
    requires var after := Finished(start, plan); after.objects == Needed(plan.head, after.Tags(), after.index)
    ensures Intact(Finished(start, plan))
  {
  }

  lemma TagOfFinished(before: Disk, start: Disk, plan: Plan, ref: string)
    requires Planned(before, start, plan, plan.key) && ref in Finished(start, plan).Tags()
    ensures FilesOfKey(plan.key) !! Finished(start, plan).Tags()[ref].target.tree.Keys
    ensures TagObjects(Finished(start, plan).Tags()[ref]) <= start.objects
  {
    NothingLeftBehind(before.head, plan.key);
    VersionsMarkTheSameBytes(before, start, plan, ref);
  }

  lemma OnlyNeededLeft(start: Disk, plan: Plan)
    requires WellPlanned(start, plan)
    requires Blobs(Without(start.index, plan.key)) <= start.objects
    requires forall ref :: ref in Finished(start, plan).Tags() ==>
      TagObjects(Finished(start, plan).Tags()[ref]) <= start.objects
    ensures Finished(start, plan).objects ==
      Needed(plan.head, Finished(start, plan).Tags(), Finished(start, plan).index)
  {
    var after := Finished(start, plan);
    assert after.Tags() == Applied(start.Tags(), plan.tags);
    assert Needed(after.head, after.Tags(), after.index) <= start.objects;
  }
}
