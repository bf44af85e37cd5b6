/**
 * Readers run beside `forget` without a lock and decide afterwards whether to
 * trust what they read. One process writes, step by step; a read is a look at
 * the disk at some instant of the run.
 */
module ReadRace {
  import opened Wrappers
  import opened Git
  import opened Rewrite

  /** How far a forget or a repair has got through `_finish_forget`. */
  datatype Stage = Signed | Counted | Pointed | NotesGone | NotesBack | TagsTorn | TagsBack | Dropped | Pruned

  datatype Pending = Pending(target: Option<Commit>, at: Stage)

  /**
   * What readers can meet. An epoch says how many forgets a value accounts for;
   * None stands for notes or tags that are only partly written.
   */
  datatype World = World(
    head: Option<Commit>, store: set<Commit>, generation: nat, pending: Option<Pending>,
    done: nat, headEpoch: nat, notesEpoch: Option<nat>, tagsEpoch: Option<nat>)

  datatype Step =
    | Save(commit: Commit)      // a recorded state or a recorded deletion
    | Annotate                  // a description or a version: nothing here changes
    | Sign(key: string)         // the checkpoint is written
    | Count                     // the generation counter
    | Point                     // HEAD
    | DropNotes | RestoreNotes
    | TearTags | RestoreTags
    | DropIndex
    | Prune(lost: set<Commit>)  // any number of the unreachable commits go
    | Seal                      // the checkpoint is deleted
    | Restart                   // a repair begins again from the checkpoint

  predicate Enabled(w: World, step: Step) {
    match step
    case Save(c) => w.pending.None? && c.parent == w.head
    case Annotate => w.pending.None?
    case Sign(key) => w.pending.None? && EverHeld(w.head, key)
    case Count => w.pending.Some? && w.pending.value.at == Signed
    case Point => w.pending.Some? && w.pending.value.at == Counted
    case DropNotes => w.pending.Some? && w.pending.value.at == Pointed
    case RestoreNotes => w.pending.Some? && w.pending.value.at == NotesGone
    case TearTags => w.pending.Some? && w.pending.value.at == NotesBack
    case RestoreTags => w.pending.Some? && w.pending.value.at == TagsTorn
    case DropIndex => w.pending.Some? && w.pending.value.at == TagsBack
    case Prune(lost) =>
      && w.pending.Some? && (w.pending.value.at == Dropped || w.pending.value.at == Pruned)
      && forall c :: c in lost ==> c !in Chain(w.head)
    case Seal => w.pending.Some? && w.pending.value.at == Pruned
    case Restart => w.pending.Some?
  }

  function At(w: World, stage: Stage): World
    requires w.pending.Some?
  {
    w.(pending := Some(w.pending.value.(at := stage)))
  }

  function Apply(w: World, step: Step): World
    requires Enabled(w, step)
  {
    match step
    case Save(c) => w.(head := Some(c), store := w.store + {c})
    case Annotate => w
    case Sign(key) =>
      var target := Nearest(w.head, key);
      w.(pending := Some(Pending(target, Signed)), store := w.store + set c | c in Chain(target))
    case Count => At(w, Counted).(generation := w.done + 1)
    case Point => At(w, Pointed).(head := w.pending.value.target, headEpoch := w.done + 1)
    case DropNotes => At(w, NotesGone).(notesEpoch := None)
    case RestoreNotes => At(w, NotesBack).(notesEpoch := Some(w.done + 1))
    case TearTags => At(w, TagsTorn).(tagsEpoch := None)
    case RestoreTags => At(w, TagsBack).(tagsEpoch := Some(w.done + 1))
    case DropIndex => At(w, Dropped)
    case Prune(lost) => At(w, Pruned).(store := w.store - lost)
    case Seal => w.(pending := None, done := w.done + 1)
    case Restart => At(w, Signed)
  }

  ghost predicate Next(w: World, w': World) {
    exists step :: Enabled(w, step) && w' == Apply(w, step)
  }

  /** A forget whose HEAD has moved and whose checkpoint still stands. */
  predicate MidForget(w: World) {
    w.pending.Some? && w.headEpoch == w.done + 1
  }

  predicate OneGeneration(w: World, epoch: nat) {
    w.headEpoch == epoch && w.notesEpoch == Some(epoch) && w.tagsEpoch == Some(epoch)
  }

  predicate PastStage(at: Stage, stage: Stage) {
    Rank(stage) <= Rank(at)
  }

  function Rank(s: Stage): nat {
    match s
    case Signed => 0 case Counted => 1 case Pointed => 2 case NotesGone => 3 case NotesBack => 4
    case TagsTorn => 5 case TagsBack => 6 case Dropped => 7 case Pruned => 8
  }

  /** What every step keeps. */
  ghost predicate Inv(w: World) {
    && (forall c :: c in Chain(w.head) ==> c in w.store)
    && (w.pending.None? ==> w.generation == w.done && OneGeneration(w, w.done))
    && (w.pending.Some? ==>
          var p := w.pending.value;
          && (forall c :: c in Chain(p.target) ==> c in w.store)
          && (w.generation == w.done || w.generation == w.done + 1)
          && (w.headEpoch == w.done || w.headEpoch == w.done + 1)
          && (PastStage(p.at, Counted) ==> w.generation == w.done + 1)
          && (PastStage(p.at, Pointed) ==> w.headEpoch == w.done + 1)
          && (w.headEpoch == w.done ==> w.head != p.target && OneGeneration(w, w.done))
          && (w.headEpoch == w.done + 1 ==> w.head == p.target && w.generation == w.done + 1)
          && (PastStage(p.at, NotesBack) ==> w.notesEpoch == Some(w.done + 1))
          && (PastStage(p.at, TagsBack) ==> w.tagsEpoch == Some(w.done + 1)))
  }

  lemma SaveKeeps(w: World, c: Commit)
    requires Inv(w) && Enabled(w, Save(c))
    ensures Inv(Apply(w, Save(c)))
  {
    assert Chain(Some(c)) == [c] + Chain(w.head);
  }

  lemma SignKeeps(w: World, key: string)
    requires Inv(w) && Enabled(w, Sign(key))
    ensures Inv(Apply(w, Sign(key)))
  {
    ForgetMovesHead(w.head, key);
  }

  lemma PruneKeeps(w: World, lost: set<Commit>)
    requires Inv(w) && Enabled(w, Prune(lost))
    ensures Inv(Apply(w, Prune(lost)))
  {
  }

  lemma ForgetStepKeeps(w: World, step: Step)
    requires Inv(w) && Enabled(w, step) && !step.Save? && !step.Sign? && !step.Prune?
    ensures Inv(Apply(w, step))
  {
  }

  lemma InvNext(w: World, step: Step)
    requires Inv(w) && Enabled(w, step)
    ensures Inv(Apply(w, step))
  {
    match step
    case Save(c) => SaveKeeps(w, c);
    case Sign(key) => SignKeeps(w, key);
    case Prune(lost) => PruneKeeps(w, lost);
    case _ => ForgetStepKeeps(w, step);
  }

  // -- runs --------------------------------------------------------------

  ghost predicate IsRun(run: seq<World>) {
    && run != [] && Inv(run[0])
    && forall i :: 0 < i < |run| ==> Follows(run, i)
  }

  ghost predicate Follows(run: seq<World>, i: nat)
    requires 0 < i < |run|
  {
    Next(run[i - 1], run[i])
  }

  lemma {:induction false} InvAlways(run: seq<World>, i: nat)
    requires IsRun(run) && i < |run|
    ensures Inv(run[i])
  {
    if i > 0 {
      InvAlways(run, i - 1);
      assert Follows(run, i);
      var step :| Enabled(run[i - 1], step) && run[i] == Apply(run[i - 1], step);
      InvNext(run[i - 1], step);
    }
  }

  /** HEAD stands still from one instant to another, or it has left and not come back. */
  ghost predicate NoReturn(run: seq<World>, from: nat, to: nat)
    requires from <= to < |run|
  {
    run[from].head == run[to].head ==> forall k :: from <= k <= to ==> run[k].head == run[from].head
  }

  /**
   * An answer between two equal looks at HEAD is of one generation of HEAD, notes
   * and tags - unless a forget stood past its HEAD move at the first look.
   */
  lemma {:induction false} AcceptedIsOneGeneration(run: seq<World>, from: nat, to: nat, k: nat)
    requires IsRun(run) && from <= k <= to < |run|
    requires run[from].head == run[to].head && NoReturn(run, from, to)
    requires !MidForget(run[from])
    ensures OneGeneration(run[k], run[from].headEpoch) && !MidForget(run[k])
    decreases k
  {
    InvAlways(run, k);
    if k > from {
      AcceptedIsOneGeneration(run, from, to, k - 1);
      InvAlways(run, k - 1);
      assert Follows(run, k);
      assert run[k].head == run[from].head && run[k - 1].head == run[from].head;
    }
  }

  /** Every accepted attempt that could start here reads one generation. */
  ghost predicate SafeStart(w: World) {
    forall run: seq<World>, to: nat, settled: nat, k: nat ::
      IsRun(run) && run[0] == w && k <= to <= settled < |run|
      && run[0].head == run[to].head && NoReturn(run, 0, to) && run[settled].pending.None?
      ==> OneGeneration(run[k], w.headEpoch)
  }

  lemma Extend(run: seq<World>, step: Step) returns (longer: seq<World>)
    requires IsRun(run) && Enabled(run[|run| - 1], step)
    ensures IsRun(longer) && longer == run + [Apply(run[|run| - 1], step)]
  {
    longer := run + [Apply(run[|run| - 1], step)];
    forall i | 0 < i < |longer| ensures Follows(longer, i) {
      if i < |run| {
        assert Follows(run, i);
      }
    }
  }

  /** From a written checkpoint to its deletion: nine steps, the third of which loses the notes. */
  lemma ForgetRuns(run: seq<World>, lost: set<Commit>) returns (longer: seq<World>)
    requires IsRun(run)
    requires var w := run[|run| - 1];
      && w.pending.Some? && w.pending.value.at == Signed
      && forall c :: c in lost ==> c !in Chain(w.pending.value.target)
    ensures IsRun(longer) && |longer| == |run| + 9 && longer[..|run|] == run
    ensures var w := run[|run| - 1];
      && longer[|run|] == At(w, Counted).(generation := w.done + 1)
      && (forall i :: |run| < i < |longer| ==> longer[i].head == w.pending.value.target)
      && longer[|run| + 2].notesEpoch.None?
      && longer[|run| + 8].pending.None? && longer[|run| + 8].generation == w.done + 1
      && longer[|run| + 8].store == w.store - lost
  {
    longer := Extend(run, Count);
    longer := Extend(longer, Point);
    longer := Extend(longer, DropNotes);
    longer := Extend(longer, RestoreNotes);
    longer := Extend(longer, TearTags);
    longer := Extend(longer, RestoreTags);
    longer := Extend(longer, DropIndex);
    longer := Extend(longer, Prune(lost));
    longer := Extend(longer, Seal);
  }

  /**
   * The exact condition. An attempt can be trusted on its HEAD and checkpoint
   * comparison alone exactly when no forget stood past its HEAD move as it began:
   * the comparison looks at the checkpoint only once the build is over.
   */
  lemma SafeExactlyOutsideAForget(w: World)
    requires Inv(w)
    ensures SafeStart(w) <==> !MidForget(w)
  {
    if MidForget(w) {
      var run := Extend([w], Restart);
      run := ForgetRuns(run, {});
      assert NoReturn(run, 0, 10);
      assert !OneGeneration(run[4], w.headEpoch);
      assert !SafeStart(w);
    } else {
      forall run: seq<World>, to: nat, settled: nat, k: nat |
        IsRun(run) && run[0] == w && k <= to <= settled < |run|
        && run[0].head == run[to].head && NoReturn(run, 0, to) && run[settled].pending.None?
        ensures OneGeneration(run[k], w.headEpoch)
      {
        AcceptedIsOneGeneration(run, 0, to, k);
      }
    }
  }

  /**
   * HEAD can come back: a new dashboard saved and forgotten within one attempt
   * leaves HEAD equal and no checkpoint, and the reads in between saw the notes gone.
   */
  lemma HeadReturnsUnnoticed(w: World, key: string, text: string, info: Info) returns (run: seq<World>)
    requires Inv(w) && w.pending.None? && Untouched(w.head, key)
    ensures IsRun(run) && |run| == 12 && run[0] == w
    ensures run[11].head == w.head && run[11].pending.None? && !MidForget(w)
    ensures run[5].notesEpoch.None? && !NoReturn(run, 0, 11)
  {
    var saved := Commit(TreeOf(w.head)[State(key) := text], w.head, info);
    HeadReturns(w.head, key, text, info);
    assert Chain(Some(saved)) == [saved] + Chain(w.head);
    assert !SameAt(TreeOf(saved.parent), saved.tree, State(key));
    run := Extend([w], Save(saved));
    run := Extend(run, Sign(key));
    run := ForgetRuns(run, {});
    assert run[1].head != w.head;
  }

  // -- the retry ---------------------------------------------------------

  const FORGET_RACE_RETRIES: nat := 3

  /** A look at HEAD: a commit or none, or a look that itself hit a pruned object. */
  datatype HeadObs = Resolved(head: Option<Commit>) | Raced

  /** A raced look is a fresh object, equal to nothing, not even another one. */
  predicate SameHead(one: HeadObs, other: HeadObs) {
    one.Resolved? && one == other
  }

  datatype Build<T> = Found(value: T) | Failed

  /** One run of `build` and the two looks after it. */
  datatype Attempt<T> = Attempt(build: Build<T>, moved: HeadObs, unsettled: bool)

  datatype Answer<T> = Returned(value: T) | Raised | Exhausted

  /** HEAD as an attempt began: the look that ended the attempt before. */
  function Began<T>(first: HeadObs, attempts: seq<Attempt<T>>, i: nat): HeadObs
    requires i < |attempts|
  {
    if i == 0 then first else attempts[i - 1].moved
  }

  predicate Trusted<T>(first: HeadObs, attempts: seq<Attempt<T>>, i: nat)
    requires i < |attempts|
  {
    SameHead(attempts[i].moved, Began(first, attempts, i)) && !attempts[i].unsettled
  }

  /** Trusted is an attempt at whose end HEAD is the commit, or the nothing, it began with, and no checkpoint stands. */
  lemma TrustedExactly<T>(first: HeadObs, attempts: seq<Attempt<T>>, i: nat)
    requires i < |attempts|
    ensures Trusted(first, attempts, i) <==>
      (&& !attempts[i].unsettled
       && exists head ::
            attempts[i].moved == Resolved(head) && (if i == 0 then first else attempts[i - 1].moved) == Resolved(head))
  {
  }

  /** The instants of a run between which a build reads, and at which HEAD and the checkpoint are looked at after it. */
  datatype Times = Times(from: nat, until: nat, moved: nat, settled: nat)

  function BeganAt(firstAt: nat, when: seq<Times>, i: nat): nat
    requires i <= |when|
  {
    if i == 0 then firstAt else when[i - 1].moved
  }

  /** A look that succeeded saw the HEAD of its instant. */
  predicate Saw(obs: HeadObs, w: World) {
    obs.Resolved? ==> obs.head == w.head
  }

  /** Everything the attempts looked at is what a run held at that instant, one attempt after the other. */
  ghost predicate Observed<T>(run: seq<World>, firstAt: nat, when: seq<Times>, first: HeadObs,
                              attempts: seq<Attempt<T>>) {
    && IsRun(run) && |when| == |attempts| && firstAt < |run| && Saw(first, run[firstAt])
    && (forall i :: 0 <= i < |when| ==> ObservedOnce(run, BeganAt(firstAt, when, i), when[i], attempts[i]))
  }

  predicate ObservedOnce<T>(run: seq<World>, began: nat, t: Times, attempt: Attempt<T>) {
    && began <= t.from <= t.until <= t.moved <= t.settled < |run|
    && Saw(attempt.moved, run[t.moved]) && attempt.unsettled == run[t.settled].pending.Some?
  }

  /** Looking at HEAD and the checkpoint at instants of a run, one after the other, is such an observation. */
  lemma LooksAreObserved<T>(run: seq<World>, firstAt: nat, t: Times, build: Build<T>)
    requires IsRun(run) && firstAt <= t.from <= t.until <= t.moved <= t.settled < |run|
    ensures Observed(run, firstAt, [t], Resolved(run[firstAt].head),
                     [Attempt(build, Resolved(run[t.moved].head), run[t.settled].pending.Some?)])
  {
    var attempts := [Attempt(build, Resolved(run[t.moved].head), run[t.settled].pending.Some?)];
    assert ObservedOnce(run, BeganAt(firstAt, [t], 0), t, attempts[0]);
  }

  /** All a build read was of one generation of HEAD, notes and tags. */
  ghost predicate BuiltOfOne(run: seq<World>, began: nat, t: Times) {
    began < |run| && t.until < |run| && forall k :: t.from <= k <= t.until ==>
      OneGeneration(run[k], run[began].headEpoch)
  }

  /** The two premises about the attempt: no forget past its HEAD move as it began, and HEAD not away and back. */
  ghost predicate Undisturbed(run: seq<World>, began: nat, t: Times) {
    began <= t.moved < |run| && !MidForget(run[began]) && NoReturn(run, began, t.moved)
  }

  /**
   * Where the looks were those of a run, everything the build of a trusted attempt
   * read - and so whatever the retry returns - is of one generation.
   */
  lemma TrustedIsOneGeneration<T>(run: seq<World>, firstAt: nat, when: seq<Times>,
                                  first: HeadObs, attempts: seq<Attempt<T>>, i: nat)
    requires Observed(run, firstAt, when, first, attempts) && i < |attempts| && Trusted(first, attempts, i)
    requires Undisturbed(run, BeganAt(firstAt, when, i), when[i])
    ensures BuiltOfOne(run, BeganAt(firstAt, when, i), when[i])
  {
    var began, t := BeganAt(firstAt, when, i), when[i];
    assert ObservedOnce(run, began, t, attempts[i]);
    if i > 0 {
      assert ObservedOnce(run, BeganAt(firstAt, when, i - 1), when[i - 1], attempts[i - 1]);
    }
    assert run[began].head == run[t.moved].head;
    forall k | t.from <= k <= t.until ensures OneGeneration(run[k], run[began].headEpoch) {
      AcceptedIsOneGeneration(run, began, t.moved, k);
    }
  }

  /**
   * Builds up to three times. Whatever is returned comes from the first attempt
   * that could be trusted, the last one included; nothing untrusted gets out.
   */
  method RetryingAForgetRace<T>(first: HeadObs, attempts: seq<Attempt<T>>)
    returns (answer: Answer<T>, builds: nat)
    requires |attempts| == FORGET_RACE_RETRIES
    ensures 1 <= builds <= FORGET_RACE_RETRIES
    ensures forall i: nat :: i < builds - 1 ==> !Trusted(first, attempts, i)
    ensures forall value :: answer == Returned(value) ==>
      attempts[builds - 1].build == Found(value) && Trusted(first, attempts, builds - 1)
    ensures builds == FORGET_RACE_RETRIES || Trusted(first, attempts, builds - 1)
    ensures answer.Raised? <==> attempts[builds - 1].build.Failed?
    ensures answer.Raised? ==> builds == FORGET_RACE_RETRIES || Trusted(first, attempts, builds - 1)
    ensures answer.Exhausted? <==>
      !Trusted(first, attempts, builds - 1) && builds == FORGET_RACE_RETRIES && attempts[builds - 1].build.Found?
    ensures (exists i: nat :: i < |attempts| && Trusted(first, attempts, i)) ==> !answer.Exhausted?
  {
    var head := first;
    builds := 0;
    for i := 0 to FORGET_RACE_RETRIES - 1
      invariant builds == i
      invariant head == Began(first, attempts, i)
      invariant forall j: nat :: j < i ==> !Trusted(first, attempts, j)
    {
      var attempt := attempts[i];
      builds := builds + 1;
      if SameHead(attempt.moved, head) && !attempt.unsettled {
        match attempt.build
        case Found(value) => return Returned(value), builds;
        case Failed => return Raised, builds;
      }
      head := attempt.moved;
    }
    var attempt := attempts[FORGET_RACE_RETRIES - 1];
    builds := builds + 1;
    if attempt.build.Failed? {
      return Raised, builds;
    }
    if SameHead(attempt.moved, head) && !attempt.unsettled {
      return Returned(attempt.build.value), builds;
    }
    return Exhausted, builds;
  }

  // -- a cursor and the generation handed out with it --------------------

  /** Between two equal looks at HEAD, the second with no checkpoint, the counter stands still. */
  lemma {:induction false} CounterStandsStill(run: seq<World>, from: nat, to: nat, back: nat)
    requires IsRun(run) && from + back <= to < |run|
    requires run[from].head == run[to].head && NoReturn(run, from, to)
    requires run[to].pending.None?
    ensures run[to - back].generation == run[to].generation
    ensures run[to - back].pending.Some? ==> MidForget(run[to - back])
    decreases back
  {
    if back > 0 {
      var k := to - back;
      CounterStandsStill(run, from, to, back - 1);
      InvAlways(run, k);
      InvAlways(run, k + 1);
      assert Follows(run, k + 1);
      assert run[k].head == run[k + 1].head;
    }
  }

  /**
   * A cursor on the history whose generation HEAD accounts for already, or one
   * that the forget under way will leave on the history.
   */
  predicate Sound(w: World, cursor: Commit, generation: nat) {
    && cursor in Chain(w.head) && generation <= w.generation
    && (generation <= w.headEpoch || (w.pending.Some? && cursor in Chain(w.pending.value.target)))
  }

  /** What later instants owe to it: the same again, or a counter that has passed it. */
  predicate Owed(w: World, cursor: Commit, generation: nat) {
    Sound(w, cursor, generation) || generation < w.generation
  }

  lemma OwedNext(w: World, step: Step, cursor: Commit, generation: nat)
    requires Inv(w) && Enabled(w, step) && Owed(w, cursor, generation)
    ensures Owed(Apply(w, step), cursor, generation)
    ensures w.generation <= Apply(w, step).generation
  {
    match step
    case Save(c) => assert Chain(Some(c)) == [c] + Chain(w.head);
    case _ =>
  }

  lemma {:induction false} AlwaysOwed(run: seq<World>, from: nat, k: nat, cursor: Commit, generation: nat)
    requires IsRun(run) && from <= k < |run|
    requires Owed(run[from], cursor, generation)
    ensures Owed(run[k], cursor, generation)
    ensures run[from].generation <= run[k].generation
    decreases k
  {
    if k > from {
      AlwaysOwed(run, from, k - 1, cursor, generation);
      InvAlways(run, k - 1);
      assert Follows(run, k);
      var step :| Enabled(run[k - 1], step) && run[k] == Apply(run[k - 1], step);
      OwedNext(run[k - 1], step, cursor, generation);
    }
  }

  /** What a request that carries a cursor comes to. */
  datatype Page = Older(cursor: Commit) | StartOver | TryAgain | Nothing

  /** The cursor is looked up, and only where that fails the counter and the checkpoint are read. */
  function Request(run: seq<World>, cursor: Commit, generation: nat, look: nat, counter: nat, check: nat): Page
    requires look <= counter <= check < |run|
  {
    if cursor in run[look].store then Older(cursor)
    else if generation < run[counter].generation then
      if run[check].pending.Some? then TryAgain else StartOver
    else Nothing
  }

  /**
   * A client is sent back to the start only once its cursor is gone and no forget is
   * under way any more; until then it tries again.
   */
  lemma RequestExactly(run: seq<World>, cursor: Commit, generation: nat, look: nat, counter: nat, check: nat)
    requires look <= counter <= check < |run|
    ensures var page := Request(run, cursor, generation, look, counter, check);
      var gone := cursor !in run[look].store && generation < run[counter].generation;
      && (page.StartOver? <==> gone && run[check].pending.None?)
      && (page.TryAgain? <==> gone && run[check].pending.Some?)
      && (page.Older? <==> cursor in run[look].store) && (page.Older? ==> page.cursor == cursor)
  {
  }

  /** No later request with this pair is answered by an empty page for want of the cursor. */
  ghost predicate NeverSilent(w: World, cursor: Commit, generation: nat) {
    forall run: seq<World>, look: nat, counter: nat, check: nat ::
      IsRun(run) && run[0] == w && look <= counter <= check < |run|
      ==> !Request(run, cursor, generation, look, counter, check).Nothing?
  }

  /** The exact condition under which a cursor and a generation may be handed out together. */
  lemma NeverSilentExactlyWhenSound(w: World, cursor: Commit, generation: nat)
    requires Inv(w) && cursor in Chain(w.head) && generation <= w.generation
    ensures NeverSilent(w, cursor, generation) <==> Sound(w, cursor, generation)
  {
    if Sound(w, cursor, generation) {
      forall run: seq<World>, look: nat, counter: nat, check: nat |
        IsRun(run) && run[0] == w && look <= counter <= check < |run|
        ensures !Request(run, cursor, generation, look, counter, check).Nothing?
      {
        AlwaysOwed(run, 0, look, cursor, generation);
        AlwaysOwed(run, look, counter, cursor, generation);
        InvAlways(run, look);
      }
    } else {
      var run := Extend([w], Restart);
      run := ForgetRuns(run, {cursor});
      assert Request(run, cursor, generation, 10, 10, 10).Nothing?;
    }
  }

  /**
   * Paging never ends silently because of a forget: a cursor and a generation
   * read in one attempt, accepted where HEAD and the checkpoint were looked at in
   * one step, come back at any later instant as the cursor's own older tail, a
   * restart, or another try - and never as an empty page.
   */
  lemma CursorNeverEndsSilently(
      run: seq<World>, from: nat, readCursor: nat, readCounter: nat, to: nat, cursor: Commit)
    requires IsRun(run) && from <= readCursor <= readCounter <= to < |run|
    requires run[from].head == run[to].head && NoReturn(run, from, to) && run[to].pending.None?
    requires cursor in Chain(run[readCursor].head)
    ensures NeverSilent(run[to], cursor, run[readCounter].generation)
  {
    CounterStandsStill(run, from, to, to - readCounter);
    InvAlways(run, to);
    assert run[readCursor].head == run[to].head;
    NeverSilentExactlyWhenSound(run[to], cursor, run[readCounter].generation);
  }

  /**
   * The premise is needed: looked at one after the other, HEAD can still be the
   * old one and the checkpoint be gone already. A generation read in between runs
   * ahead of the cursor, and once the cursor is pruned the page is simply empty.
   */
  lemma SilentEndBetweenTheLooks(w: World, key: string) returns (run: seq<World>)
    requires Inv(w) && w.pending.None? && EverHeld(w.head, key)
    requires w.head.value !in Chain(Nearest(w.head, key))
    ensures IsRun(run) && |run| == 11 && run[0] == w
    ensures run[2].head == w.head && run[10].pending.None?
    ensures Request(run, w.head.value, run[2].generation, 10, 10, 10).Nothing?
  {
    run := Extend([w], Sign(key));
    run := ForgetRuns(run, {w.head.value});
  }
}
