/**
 * What readers see of the store while a forget is finished: every disk write of
 * `FinishForget` is a step of the readers' state machine, or none of their business.
 */
module Watched {
  import opened Wrappers
  import opened Git
  import opened Rewrite
  import opened HistoryStore
  import Readers = ReadRace
  import Pages = Paging

  function Commits(objects: set<Object>): set<Commit> {
    set o | o in objects && o.CommitObject? :: o.commit
  }

  lemma CommitsHold(objects: set<Object>, c: Commit)
    ensures c in Commits(objects) <==> CommitObject(c) in objects
  {
    if CommitObject(c) in objects {
      assert CommitObject(c).CommitObject? && CommitObject(c).commit == c;
    }
  }

  // -- what an instant shows ---------------------------------------------

  /**
   * An instant of the readers' world shows a disk: HEAD, commits, counter and
   * checkpoint are the disk's, and where an epoch is claimed, the disk holds
   * what that epoch's generation holds.
   */
  ghost predicate Shows(d: Disk, start: Disk, plan: Plan, w: Readers.World) {
    && w.head == d.head && w.store == Commits(d.objects) && w.generation == d.generation
    && StandsSo(d, start, plan, w)
    && EpochHolds(Some(w.headEpoch), start.generation, d.head == start.head, d.head == plan.head)
    && EpochHolds(w.notesEpoch, start.generation, d.notes == start.notes, d.notes == plan.notes)
    && EpochHolds(w.tagsEpoch, start.generation, d.Tags() == start.Tags(), d.Tags() == Applied(start.Tags(), plan.tags))
  }

  predicate EpochHolds(epoch: Option<nat>, generation: nat, before: bool, after: bool) {
    (epoch == Some(generation) ==> before) && (epoch == Some(generation + 1) ==> after)
  }

  predicate StandsSo(d: Disk, start: Disk, plan: Plan, w: Readers.World) {
    if w.pending.Some? then
      d.checkpoint == Some(plan) && w.pending.value.target == plan.head && w.done == start.generation
    else d.checkpoint.None? && w.done == start.generation + 1
  }

  predicate AtStage(w: Readers.World, stage: Readers.Stage) {
    w.pending.Some? && w.pending.value.at == stage
  }

  function Now(run: seq<Readers.World>): Readers.World
    requires run != []
  {
    run[|run| - 1]
  }

  /** The disk after every one of the writes is shown by some instant before `upto`, in that order. */
  ghost predicate SeenBy(d: Disk, writes: seq<Write>, start: Disk, plan: Plan, run: seq<Readers.World>, upto: nat)
    decreases |writes|
  {
    exists i: nat :: i < upto && i < |run| && Shows(DoAll(d, writes), start, plan, run[i])
      && (writes != [] ==> SeenBy(d, writes[..|writes| - 1], start, plan, run, i + 1))
  }

  ghost predicate Tracks(d: Disk, writes: seq<Write>, start: Disk, plan: Plan, run: seq<Readers.World>) {
    Readers.IsRun(run) && SeenBy(d, writes, start, plan, run, |run|) && Shows(DoAll(d, writes), start, plan, Now(run))
  }

  lemma {:induction false} SeenLonger(d: Disk, writes: seq<Write>, start: Disk, plan: Plan,
                                      run: seq<Readers.World>, longer: seq<Readers.World>, upto: nat, later: nat)
    requires SeenBy(d, writes, start, plan, run, upto) && run <= longer && upto <= later
    ensures SeenBy(d, writes, start, plan, longer, later)
    decreases |writes|
  {
    var i: nat :| i < upto && i < |run| && Shows(DoAll(d, writes), start, plan, run[i])
      && (writes != [] ==> SeenBy(d, writes[..|writes| - 1], start, plan, run, i + 1));
    assert longer[i] == run[i];
    if writes != [] {
      SeenLonger(d, writes[..|writes| - 1], start, plan, run, longer, i + 1, i + 1);
    }
  }

  /** A step that goes with no write. */
  lemma Aside(d: Disk, writes: seq<Write>, start: Disk, plan: Plan, run: seq<Readers.World>, step: Readers.Step)
    returns (longer: seq<Readers.World>)
    requires Tracks(d, writes, start, plan, run) && Readers.Enabled(Now(run), step)
    requires Shows(DoAll(d, writes), start, plan, Readers.Apply(Now(run), step))
    ensures run <= longer && Tracks(d, writes, start, plan, longer) && Now(longer) == Readers.Apply(Now(run), step)
  {
    longer := Readers.Extend(run, step);
    SeenLonger(d, writes, start, plan, run, longer, |run|, |longer|);
  }

  /** A write that goes with a step. */
  lemma Together(d: Disk, writes: seq<Write>, write: Write, start: Disk, plan: Plan, run: seq<Readers.World>,
                 step: Readers.Step)
    returns (longer: seq<Readers.World>)
    requires Tracks(d, writes, start, plan, run) && Readers.Enabled(Now(run), step)
    requires Shows(Do(DoAll(d, writes), write), start, plan, Readers.Apply(Now(run), step))
    ensures run <= longer && Tracks(d, writes + [write], start, plan, longer)
    ensures Now(longer) == Readers.Apply(Now(run), step)
  {
    longer := Readers.Extend(run, step);
    SeenLonger(d, writes, start, plan, run, longer, |run|, |longer|);
    NowSeen(d, writes, write, start, plan, longer);
  }

  /** A write no reader can tell. */
  lemma Unnoticed(d: Disk, writes: seq<Write>, write: Write, start: Disk, plan: Plan, run: seq<Readers.World>)
    requires Tracks(d, writes, start, plan, run) && Shows(Do(DoAll(d, writes), write), start, plan, Now(run))
    ensures Tracks(d, writes + [write], start, plan, run)
  {
    NowSeen(d, writes, write, start, plan, run);
  }

  lemma NowSeen(d: Disk, writes: seq<Write>, write: Write, start: Disk, plan: Plan, run: seq<Readers.World>)
    requires run != [] && SeenBy(d, writes, start, plan, run, |run|)
    requires Shows(Do(DoAll(d, writes), write), start, plan, Now(run))
    ensures SeenBy(d, writes + [write], start, plan, run, |run|)
    ensures Shows(DoAll(d, writes + [write]), start, plan, Now(run))
  {
    OneWriteMore(d, writes, write);
    assert (writes + [write])[..|writes|] == writes;
    var i: nat := |run| - 1;
    assert Shows(DoAll(d, writes + [write]), start, plan, run[i]);
  }

  // -- one write ---------------------------------------------------------

  lemma CountShows(d: Disk, start: Disk, plan: Plan, w: Readers.World)
    requires WellPlanned(start, plan) && Shows(d, start, plan, w) && AtStage(w, Readers.Signed)
    ensures Shows(Do(d, SetGeneration(plan.generation)), start, plan, Readers.Apply(w, Readers.Count))
  {
  }

  lemma PointShows(d: Disk, start: Disk, plan: Plan, w: Readers.World)
    requires Shows(d, start, plan, w) && AtStage(w, Readers.Counted)
    ensures Shows(Do(d, SetHead(plan.head)), start, plan, Readers.Apply(w, Readers.Point))
  {
  }

  lemma ClearShows(d: Disk, start: Disk, plan: Plan, w: Readers.World)
    requires Shows(d, start, plan, w) && AtStage(w, Readers.Pointed)
    ensures Shows(Do(d, ClearNotes), start, plan, Readers.Apply(w, Readers.DropNotes))
  {
  }

  lemma BackShows(d: Disk, start: Disk, plan: Plan, w: Readers.World)
    requires Shows(d, start, plan, w) && AtStage(w, Readers.NotesGone) && d.notes == plan.notes
    ensures Shows(d, start, plan, Readers.Apply(w, Readers.RestoreNotes))
    ensures Shows(d, start, plan, Readers.Apply(Readers.Apply(w, Readers.RestoreNotes), Readers.TearTags))
  {
  }

  lemma PackedShows(d: Disk, start: Disk, plan: Plan, w: Readers.World)
    requires Shows(d, start, plan, w) && AtStage(w, Readers.TagsTorn)
    requires Do(d, ReplacePacked(plan.tags)).Tags() == Applied(start.Tags(), plan.tags)
    ensures Shows(Do(d, ReplacePacked(plan.tags)), start, plan, Readers.Apply(w, Readers.RestoreTags))
  {
  }

  lemma PackShows(d: Disk, start: Disk, plan: Plan, w: Readers.World)
    requires Shows(d, start, plan, w) && AtStage(w, Readers.TagsBack)
    ensures Shows(Do(d, PackRefs), start, plan, Readers.Apply(w, Readers.DropIndex))
  {
    assert Do(d, PackRefs).Tags() == d.Tags();
  }

  lemma NothingPrunedShows(d: Disk, start: Disk, plan: Plan, w: Readers.World)
    requires Shows(d, start, plan, w) && AtStage(w, Readers.Dropped)
    ensures Shows(d, start, plan, Readers.Apply(w, Readers.Prune({})))
  {
    assert w.store - {} == w.store;
  }

  lemma SealShows(d: Disk, start: Disk, plan: Plan, w: Readers.World)
    requires Shows(d, start, plan, w) && AtStage(w, Readers.Pruned)
    ensures Shows(Do(d, DeleteCheckpoint), start, plan, Readers.Apply(w, Readers.Seal))
  {
  }

  lemma NoteUnnoticed(d: Disk, write: Write, start: Disk, plan: Plan, w: Readers.World)
    requires Shows(d, start, plan, w) && w.notesEpoch.None? && write.FileNote?
    ensures Shows(Do(d, write), start, plan, w)
  {
  }

  lemma UnlinkUnnoticed(d: Disk, write: Write, start: Disk, plan: Plan, w: Readers.World)
    requires Shows(d, start, plan, w) && w.tagsEpoch.None? && write.Unlink?
    ensures Shows(Do(d, write), start, plan, w)
  {
  }

  lemma IndexUnnoticed(d: Disk, write: Write, start: Disk, plan: Plan, w: Readers.World)
    requires Shows(d, start, plan, w) && (write.DeleteFile? || write.WriteIndex?)
    ensures Shows(Do(d, write), start, plan, w)
  {
  }

  lemma PruneShows(d: Disk, o: Object, start: Disk, plan: Plan, w: Readers.World)
    requires Shows(d, start, plan, w) && Readers.Enabled(w, Readers.Prune(LostBy(o)))
    ensures Shows(Do(d, DeleteObject(o)), start, plan, Readers.Apply(w, Readers.Prune(LostBy(o))))
  {
    CommitsWithout(d.objects, o);
  }

  lemma MayPrune(o: Object, plan: Plan, w: Readers.World)
    requires Readers.Inv(w) && w.pending.Some? && w.pending.value.target == plan.head && o !in ChainObjects(plan.head)
    requires AtStage(w, Readers.Dropped) || AtStage(w, Readers.Pruned)
    ensures Readers.Enabled(w, Readers.Prune(LostBy(o)))
  {
    forall c | c in LostBy(o) ensures c !in Chain(plan.head) {
      if c in Chain(plan.head) {
        OnTheChain(plan.head, c);
      }
    }
  }

  // -- the parts of a script ---------------------------------------------

  lemma LastWrite(so: seq<Write>, part: seq<Write>)
    requires part != []
    ensures so + part == so + part[..|part| - 1] + [part[|part| - 1]]
  {
  }

  lemma LastUnnoticed(d: Disk, so: seq<Write>, part: seq<Write>, start: Disk, plan: Plan, run: seq<Readers.World>)
    requires part != [] && Tracks(d, so + part[..|part| - 1], start, plan, run)
    requires Shows(Do(DoAll(d, so + part[..|part| - 1]), part[|part| - 1]), start, plan, Now(run))
    ensures Tracks(d, so + part, start, plan, run)
  {
    LastWrite(so, part);
    Unnoticed(d, so + part[..|part| - 1], part[|part| - 1], start, plan, run);
  }

  lemma RefsSeen(d: Disk, part: seq<Write>, start: Disk, plan: Plan, run: seq<Readers.World>)
    returns (longer: seq<Readers.World>)
    requires WellPlanned(start, plan) && IsRefsPart(part, plan)
    requires Tracks(d, [], start, plan, run) && AtStage(Now(run), Readers.Signed)
    ensures run <= longer && Tracks(d, part, start, plan, longer) && Now(longer).pending.Some?
    ensures |part| == 2 ==> AtStage(Now(longer), Readers.Pointed)
  {
    longer := run;
    if part != [] {
      longer := CountSeen(d, start, plan, run);
    }
    if |part| == 2 {
      PointShows(DoAll(d, [SetGeneration(plan.generation)]), start, plan, Now(longer));
      longer := Together(d, [SetGeneration(plan.generation)], SetHead(plan.head), start, plan, longer, Readers.Point);
      assert part == [SetGeneration(plan.generation)] + [SetHead(plan.head)];
    }
  }

  lemma CountSeen(d: Disk, start: Disk, plan: Plan, run: seq<Readers.World>) returns (longer: seq<Readers.World>)
    requires WellPlanned(start, plan) && Tracks(d, [], start, plan, run) && AtStage(Now(run), Readers.Signed)
    ensures run <= longer && Tracks(d, [SetGeneration(plan.generation)], start, plan, longer)
    ensures AtStage(Now(longer), Readers.Counted)
  {
    CountShows(DoAll(d, []), start, plan, Now(run));
    longer := Together(d, [], SetGeneration(plan.generation), start, plan, run, Readers.Count);
    assert [] + [SetGeneration(plan.generation)] == [SetGeneration(plan.generation)];
  }

  lemma {:induction false} NotesSeen(d: Disk, so: seq<Write>, part: seq<Write>, start: Disk, plan: Plan,
                                     run: seq<Readers.World>)
    returns (longer: seq<Readers.World>)
    requires part != [] && IsNotesPart(part)
    requires Tracks(d, so, start, plan, run) && AtStage(Now(run), Readers.Pointed)
    ensures run <= longer && Tracks(d, so + part, start, plan, longer)
    ensures AtStage(Now(longer), Readers.NotesGone) && Now(longer).notesEpoch.None?
    decreases |part|
  {
    var n := |part| - 1;
    LastWrite(so, part);
    if n == 0 {
      ClearShows(DoAll(d, so), start, plan, Now(run));
      longer := Together(d, so, ClearNotes, start, plan, run, Readers.DropNotes);
      assert part == [ClearNotes];
    } else {
      longer := NotesSeen(d, so, part[..n], start, plan, run);
      NoteUnnoticed(DoAll(d, so + part[..n]), part[n], start, plan, Now(longer));
      Unnoticed(d, so + part[..n], part[n], start, plan, longer);
    }
  }

  /** The descriptions are all back, and the tags may be torn from now on. */
  lemma NotesAreBack(d: Disk, so: seq<Write>, start: Disk, plan: Plan, run: seq<Readers.World>)
    returns (longer: seq<Readers.World>)
    requires Tracks(d, so, start, plan, run) && AtStage(Now(run), Readers.NotesGone)
    requires DoAll(d, so).notes == plan.notes
    ensures run <= longer && Tracks(d, so, start, plan, longer)
    ensures AtStage(Now(longer), Readers.TagsTorn) && Now(longer).tagsEpoch.None?
  {
    BackShows(DoAll(d, so), start, plan, Now(run));
    longer := Aside(d, so, start, plan, run, Readers.RestoreNotes);
    longer := Aside(d, so, start, plan, longer, Readers.TearTags);
  }

  lemma {:induction false} UnlinksSeen(d: Disk, so: seq<Write>, part: seq<Write>, start: Disk, plan: Plan,
                                       run: seq<Readers.World>)
    requires AllUnlinks(part, plan.tags)
    requires Tracks(d, so, start, plan, run) && AtStage(Now(run), Readers.TagsTorn) && Now(run).tagsEpoch.None?
    ensures Tracks(d, so + part, start, plan, run)
    decreases |part|
  {
    if part == [] {
      assert so + part == so;
    } else {
      var n := |part| - 1;
      UnlinksSeen(d, so, part[..n], start, plan, run);
      UnlinkUnnoticed(DoAll(d, so + part[..n]), part[n], start, plan, Now(run));
      LastUnnoticed(d, so, part, start, plan, run);
    }
  }

  /** Loose refs that go take nothing away but what the plan is about. */
  lemma {:induction false} UnlinksStayWithin(d: Disk, part: seq<Write>, changed: TagPlan)
    requires AllUnlinks(part, changed)
    ensures DoAll(d, part).Tags() - changed.Keys == d.Tags() - changed.Keys
    ensures DoAll(d, part).packed == d.packed
    decreases |part|
  {
    if part != [] {
      var n := |part| - 1;
      UnlinksStayWithin(d, part[..n], changed);
      var so := DoAll(d, part[..n]);
      HiddenByPlan(so.packed, so.loose, {part[n].ref}, changed);
    }
  }

  lemma AppliedAlike(one: Tags, other: Tags, changed: TagPlan)
    requires one - changed.Keys == other - changed.Keys
    ensures Applied(one, changed) == Applied(other, changed)
  {
  }

  lemma PackedIsApplied(d: Disk, changed: TagPlan)
    requires d.loose.Keys !! changed.Keys
    ensures Do(d, ReplacePacked(changed)).Tags() == Applied(d.Tags(), changed)
  {
    assert d.loose - changed.Keys == d.loose;
    AppliedUnderLoose(d.packed, d.loose, changed);
  }

  lemma TagsSeen(d: Disk, so: seq<Write>, part: seq<Write>, start: Disk, plan: Plan, run: seq<Readers.World>)
    returns (longer: seq<Readers.World>)
    requires part != [] && IsTagsPart(part, DoAll(d, so), plan.tags)
    requires DoAll(d, so).Tags() - plan.tags.Keys == start.Tags() - plan.tags.Keys && DoAll(d, so).notes == plan.notes
    requires Tracks(d, so, start, plan, run) && AtStage(Now(run), Readers.NotesGone)
    ensures run <= longer && Tracks(d, so + part, start, plan, longer) && Now(longer).pending.Some?
    ensures IsTagsDone(part, DoAll(d, so), plan.tags) ==> AtStage(Now(longer), Readers.TagsBack)
  {
    longer := NotesAreBack(d, so, start, plan, run);
    if IsTagsDone(part, DoAll(d, so), plan.tags) {
      var unlinks := part[..|part| - 1];
      UnlinksSeen(d, so, unlinks, start, plan, longer);
      longer := PackedSeen(d, so, unlinks, start, plan, longer);
      LastWrite(so, part);
    } else {
      UnlinksSeen(d, so, part, start, plan, longer);
    }
  }

  lemma PackedSeen(d: Disk, so: seq<Write>, unlinks: seq<Write>, start: Disk, plan: Plan, run: seq<Readers.World>)
    returns (longer: seq<Readers.World>)
    requires AllUnlinks(unlinks, plan.tags) && DoAll(DoAll(d, so), unlinks).loose.Keys !! plan.tags.Keys
    requires DoAll(d, so).Tags() - plan.tags.Keys == start.Tags() - plan.tags.Keys
    requires Tracks(d, so + unlinks, start, plan, run) && AtStage(Now(run), Readers.TagsTorn)
    ensures run <= longer && Tracks(d, so + unlinks + [ReplacePacked(plan.tags)], start, plan, longer)
    ensures AtStage(Now(longer), Readers.TagsBack)
  {
    var torn := DoAll(d, so + unlinks);
    DoneInTurn(d, so, unlinks);
    UnlinksStayWithin(DoAll(d, so), unlinks, plan.tags);
    PackedIsApplied(torn, plan.tags);
    AppliedAlike(torn.Tags(), start.Tags(), plan.tags);
    PackedShows(torn, start, plan, Now(run));
    longer := Together(d, so + unlinks, ReplacePacked(plan.tags), start, plan, run, Readers.RestoreTags);
  }

  lemma {:induction false} IndexSeen(d: Disk, so: seq<Write>, part: seq<Write>, start: Disk, plan: Plan,
                                     run: seq<Readers.World>)
    requires IsIndexPart(part) && Tracks(d, so, start, plan, run)
    ensures Tracks(d, so + part, start, plan, run)
    decreases |part|
  {
    if part == [] {
      assert so + part == so;
    } else {
      var n := |part| - 1;
      IndexSeen(d, so, part[..n], start, plan, run);
      IndexUnnoticed(DoAll(d, so + part[..n]), part[n], start, plan, Now(run));
      LastUnnoticed(d, so, part, start, plan, run);
    }
  }

  /** What a deleted object means to readers: its commit is no longer found. */
  function LostBy(o: Object): set<Commit> {
    if o.CommitObject? then {o.commit} else {}
  }

  lemma CommitsWithout(objects: set<Object>, o: Object)
    ensures Commits(objects - {o}) == Commits(objects) - LostBy(o)
  {
    forall c ensures c in Commits(objects - {o}) <==> c in Commits(objects) - LostBy(o) {
      CommitsHold(objects, c);
      CommitsHold(objects - {o}, c);
    }
  }

  lemma PruneSeen(d: Disk, so: seq<Write>, o: Object, start: Disk, plan: Plan, run: seq<Readers.World>)
    returns (longer: seq<Readers.World>)
    requires Tracks(d, so, start, plan, run) && o !in ChainObjects(plan.head)
    requires AtStage(Now(run), Readers.Dropped) || AtStage(Now(run), Readers.Pruned)
    ensures run <= longer && Tracks(d, so + [DeleteObject(o)], start, plan, longer)
    ensures AtStage(Now(longer), Readers.Pruned)
  {
    Readers.InvAlways(run, |run| - 1);
    MayPrune(o, plan, Now(run));
    PruneShows(DoAll(d, so), o, start, plan, Now(run));
    longer := Together(d, so, DeleteObject(o), start, plan, run, Readers.Prune(LostBy(o)));
  }

  lemma {:induction false} CollectionSeen(d: Disk, so: seq<Write>, part: seq<Write>, start: Disk, plan: Plan,
                                          run: seq<Readers.World>)
    returns (longer: seq<Readers.World>)
    requires part != [] && IsCollection(part, ChainObjects(plan.head))
    requires Tracks(d, so, start, plan, run) && AtStage(Now(run), Readers.TagsBack)
    ensures run <= longer && Tracks(d, so + part, start, plan, longer)
    ensures AtStage(Now(longer), Readers.Dropped) || AtStage(Now(longer), Readers.Pruned)
    decreases |part|
  {
    var n := |part| - 1;
    LastWrite(so, part);
    if n == 0 {
      PackShows(DoAll(d, so), start, plan, Now(run));
      longer := Together(d, so, PackRefs, start, plan, run, Readers.DropIndex);
    } else {
      assert part[n] == part[1..][n - 1];
      assert forall k :: 0 <= k < n - 1 ==> part[..n][1..][k] == part[1..][k];
      longer := CollectionSeen(d, so, part[..n], start, plan, run);
      longer := PruneSeen(d, so + part[..n], part[n].lost, start, plan, longer);
    }
  }

  lemma SealSeen(d: Disk, so: seq<Write>, start: Disk, plan: Plan, run: seq<Readers.World>)
    returns (longer: seq<Readers.World>)
    requires Tracks(d, so, start, plan, run)
    requires AtStage(Now(run), Readers.Dropped) || AtStage(Now(run), Readers.Pruned)
    ensures run <= longer && Tracks(d, so + [DeleteCheckpoint], start, plan, longer) && Now(longer).pending.None?
  {
    longer := run;
    if AtStage(Now(run), Readers.Dropped) {
      NothingPrunedShows(DoAll(d, so), start, plan, Now(run));
      longer := Aside(d, so, start, plan, run, Readers.Prune({}));
    }
    SealShows(DoAll(d, so), start, plan, Now(longer));
    longer := Together(d, so, DeleteCheckpoint, start, plan, longer, Readers.Seal);
  }

  lemma EndSeen(d: Disk, so: seq<Write>, part: seq<Write>, start: Disk, plan: Plan, run: seq<Readers.World>)
    returns (longer: seq<Readers.World>)
    requires part != [] && IsEnd(part, ChainObjects(plan.head))
    requires Tracks(d, so, start, plan, run) && AtStage(Now(run), Readers.TagsBack)
    ensures run <= longer && Tracks(d, so + part, start, plan, longer)
  {
    if IsSealed(part, ChainObjects(plan.head)) {
      var n := |part| - 1;
      longer := CollectionSeen(d, so, part[..n], start, plan, run);
      longer := SealSeen(d, so + part[..n], start, plan, longer);
      LastWrite(so, part);
    } else {
      longer := CollectionSeen(d, so, part, start, plan, run);
    }
  }

  // -- the whole of it ---------------------------------------------------

  lemma {:induction false} TagsUntouched(d: Disk, part: seq<Write>)
    requires forall k :: 0 <= k < |part| ==>
      part[k].SetGeneration? || part[k].SetHead? || part[k].ClearNotes? || part[k].FileNote?
    ensures DoAll(d, part).Tags() == d.Tags()
    decreases |part|
  {
    if part != [] {
      TagsUntouched(d, part[..|part| - 1]);
    }
  }

  /**
   * The readers' state machine covers the store: whatever `FinishForget` wrote, and
   * wherever it died, there is a run of it that shows the disk after every write.
   */
  lemma EveryWriteIsSeen(d: Disk, s: Script, start: Disk, plan: Plan, run: seq<Readers.World>)
    returns (longer: seq<Readers.World>)
    requires InFlight(d, start, plan) && InOrder(s, d, plan)
    requires Readers.IsRun(run) && Shows(d, start, plan, Now(run)) && AtStage(Now(run), Readers.Signed)
    ensures run <= longer && Tracks(d, s.All(), start, plan, longer)
    ensures DoAll(d, s.All()) == Wrote(s, d)
  {
    WroteIsAll(s, d);
    assert Tracks(d, [], start, plan, run);
    longer := RefsSeen(d, s.refs, start, plan, run);
    if s.notes != [] {
      longer := RestSeen(d, s, start, plan, longer);
    } else {
      assert s.All() == s.refs;
    }
  }

  lemma RestSeen(d: Disk, s: Script, start: Disk, plan: Plan, run: seq<Readers.World>)
    returns (longer: seq<Readers.World>)
    requires InFlight(d, start, plan) && InOrder(s, d, plan) && s.notes != []
    requires Tracks(d, s.refs, start, plan, run) && AtStage(Now(run), Readers.Pointed)
    ensures run <= longer && Tracks(d, s.All(), start, plan, longer)
  {
    var so := s.refs + s.notes;
    DoneInTurn(d, s.refs, s.notes);
    longer := NotesSeen(d, s.refs, s.notes, start, plan, run);
    if s.tags != [] {
      longer := TailSeen(d, so, s, start, plan, longer);
      assert s.All() == so + s.tags + s.index + s.end;
    } else {
      assert s.All() == so;
    }
  }

  lemma TailSeen(d: Disk, so: seq<Write>, s: Script, start: Disk, plan: Plan, run: seq<Readers.World>)
    returns (longer: seq<Readers.World>)
    requires so == s.refs + s.notes && InFlight(d, start, plan) && InOrder(s, d, plan) && s.tags != []
    requires DoAll(d, so) == DoAll(DoAll(d, s.refs), s.notes)
    requires Tracks(d, so, start, plan, run) && AtStage(Now(run), Readers.NotesGone)
    ensures run <= longer && Tracks(d, so + s.tags + s.index + s.end, start, plan, longer)
  {
    TagsUntouched(d, so);
    longer := TagsSeen(d, so, s.tags, start, plan, run);
    IndexSeen(d, so + s.tags, s.index, start, plan, longer);
    longer := EndIfAny(d, so + s.tags + s.index, s.end, start, plan, longer);
  }

  lemma EndIfAny(d: Disk, so: seq<Write>, part: seq<Write>, start: Disk, plan: Plan, run: seq<Readers.World>)
    returns (longer: seq<Readers.World>)
    requires IsEnd(part, ChainObjects(plan.head)) && Tracks(d, so, start, plan, run)
    requires part != [] ==> AtStage(Now(run), Readers.TagsBack)
    ensures run <= longer && Tracks(d, so + part, start, plan, longer)
  {
    if part == [] {
      longer := run;
      assert so + part == so;
    } else {
      longer := EndSeen(d, so, part, start, plan, run);
    }
  }

  /** A restart begins again from the checkpoint, whatever the crash left. */
  lemma RestartIsSeen(d: Disk, start: Disk, plan: Plan, run: seq<Readers.World>) returns (longer: seq<Readers.World>)
    requires InFlight(d, start, plan) && Readers.IsRun(run) && Shows(d, start, plan, Now(run))
    ensures run <= longer && Readers.IsRun(longer) && Shows(d, start, plan, Now(longer))
    ensures AtStage(Now(longer), Readers.Signed)
  {
    longer := Readers.Extend(run, Readers.Restart);
  }

  // -- what that means for a read ----------------------------------------

  predicate StateBefore(d: Disk, start: Disk) {
    d.head == start.head && d.notes == start.notes && d.Tags() == start.Tags()
  }

  predicate StateAfter(d: Disk, start: Disk, plan: Plan) {
    d.head == plan.head && d.notes == plan.notes && d.Tags() == Applied(start.Tags(), plan.tags)
  }

  /**
   * A read accepted between two equal looks at HEAD met, on every disk in between,
   * the whole state before the forget or, every time, the whole state after it.
   */
  lemma AcceptedMetOneState(run: seq<Readers.World>, from: nat, to: nat, k: nat, d: Disk, start: Disk, plan: Plan)
    requires Readers.IsRun(run) && from <= k <= to < |run| && Shows(d, start, plan, run[k])
    requires run[from].head == run[to].head && Readers.NoReturn(run, from, to) && !Readers.MidForget(run[from])
    ensures if run[from].headEpoch == start.generation then StateBefore(d, start)
      else run[from].headEpoch == start.generation + 1 && StateAfter(d, start, plan)
  {
    Readers.AcceptedIsOneGeneration(run, from, to, k);
    Readers.InvAlways(run, k);
  }

  /**
   * A cursor and a generation handed out by one accepted attempt come back, at any
   * later point of any run, as exactly the rest of the list the cursor was in - or
   * as a restart or another try, and never as an empty page.
   */
  lemma CursorGivesTheRest(run: seq<Readers.World>, from: nat, readCursor: nat, readCounter: nat, to: nat, key: string,
                           i: nat,
                           later: seq<Readers.World>, look: nat, counter: nat, check: nat)
    requires Readers.IsRun(run) && from <= readCursor <= readCounter <= to < |run|
    requires run[from].head == run[to].head && Readers.NoReturn(run, from, to) && run[to].pending.None?
    requires i < |Changes(key, run[readCursor].head)|
    requires Readers.IsRun(later) && later[0] == run[to] && look <= counter <= check < |later|
    ensures var listed := Changes(key, run[readCursor].head);
      var page := Readers.Request(later, listed[i], run[readCounter].generation, look, counter, check);
      !page.Nothing? && (page.Older? ==> Pages.Asked(key, later[look].head, Some(page.cursor)) == listed[i + 1..])
  {
    var cursor := Changes(key, run[readCursor].head)[i];
    ChangesAreOnTheChain(key, run[readCursor].head, i);
    Readers.CursorNeverEndsSilently(run, from, readCursor, readCounter, to, cursor);
    Pages.TailAfter(key, run[readCursor].head, i);
    assert Readers.NeverSilent(run[to], cursor, run[readCounter].generation);
  }

  lemma {:induction false} ChangesAreOnTheChain(key: string, head: Option<Commit>, i: nat)
    requires i < |Changes(key, head)|
    ensures Changes(key, head)[i] in Chain(head)
    decreases head
  {
    var older := Changes(key, head.value.parent);
    if Changes(key, head)[i] != head.value {
      var j := if Changes(key, head) == older then i else i - 1;
      ChangesAreOnTheChain(key, head.value.parent, j);
    }
  }
}
