/** The lock-protected step board of azext_edge/edge/util/workflow_display.py: the operations on an
    object, and every interleaving of threads that run them one access at a time. */
module Workflow {
  import opened Json

  datatype State = Pending | Active | Complete | Skipped | Failed

  datatype Entry = Entry(state: State, detail: string)

  /** Category and step name. */
  type Key = (string, string)

  type Board = map<Key, Entry>

  // ---------- whole operations ----------

  function Done(e: Entry): Entry {
    if e.state.Pending? then Entry(Complete, if e.detail == "" then "done" else e.detail) else e
  }

  function InCategory(board: Board, category: string): set<Key> {
    set k | k in board && k.0 == category
  }

  function CompleteAll(board: Board, category: string): Board {
    map k | k in board :: if k.0 == category then Done(board[k]) else board[k]
  }

  /** An unknown step raises and changes nothing. */
  function SetStep(board: Board, key: Key, e: Entry): Board {
    if key in board then board[key := e] else board
  }

  class WorkflowDisplay {
    var steps: Board
    const categories: set<string>

    constructor (categories: set<string>, keys: set<Key>)
      requires forall k | k in keys :: k.0 in categories
      ensures this.categories == categories && steps == map k | k in keys :: Entry(Pending, "")
    {
      this.categories := categories;
      steps := map k | k in keys :: Entry(Pending, "");
    }

    /** `update_step`; `false` is the ValueError for an unknown category or step. */
    method UpdateStep(category: string, step: string, state: State, detail: string) returns (known: bool)
      modifies this`steps
      ensures known <==> (category, step) in old(steps)
      ensures steps == if known then old(steps)[(category, step) := Entry(state, detail)] else old(steps)
      ensures steps == SetStep(old(steps), (category, step), Entry(state, detail))
    {
      known := (category, step) in steps;
      if known { steps := steps[(category, step) := Entry(state, detail)]; }
    }

    /** `complete_category`, entry by entry. */
    method CompleteCategory(category: string) returns (known: bool)
      requires forall k | k in steps :: k.0 in categories
      modifies this`steps
      ensures known <==> category in categories
      ensures steps.Keys == old(steps).Keys
      ensures forall k | k in steps ::
                if known && k.0 == category && old(steps)[k].state == Pending then
                  && steps[k].state == Complete
                  && steps[k].detail == (if old(steps)[k].detail == "" then "done" else old(steps)[k].detail)
                else steps[k] == old(steps)[k]
      ensures steps == CompleteAll(old(steps), category)
    {
      known := category in categories;
      if !known {
        assert steps == CompleteAll(steps, category);
        return;
      }
      var todo := InCategory(steps, category);
      while todo != {}
        invariant steps.Keys == old(steps).Keys && todo <= InCategory(steps, category)
        invariant forall k | k in steps ::
                    steps[k] == if k.0 == category && k !in todo then Done(old(steps)[k]) else old(steps)[k]
        decreases todo
      {
        var k :| k in todo;
        if steps[k].state.Pending? {
          steps := steps[k := Entry(Complete, steps[k].detail)];
          if steps[k].detail == "" {
            steps := steps[k := Entry(Complete, "done")];
          }
        }
        todo := todo - {k};
      }
    }
  }

  /** Setting a known step stores exactly what is given and keeps every other step. */
  lemma SetStepIs(board: Board, key: Key, e: Entry)
    ensures SetStep(board, key, e).Keys == board.Keys
    ensures key in board ==> SetStep(board, key, e)[key] == e
    ensures forall k | k in board && k != key :: SetStep(board, key, e)[k] == board[k]
  {
  }

  /** Completing leaves nothing pending in the category and keeps every other entry. */
  lemma CompleteAllIs(board: Board, category: string)
    ensures var after := CompleteAll(board, category);
            && after.Keys == board.Keys
            && (forall k | k in board && k.0 == category :: !after[k].state.Pending?)
            && (forall k | k in board && k.0 == category && board[k].state.Pending? ::
                  after[k].state == Complete
                  && after[k].detail == (if board[k].detail == "" then "done" else board[k].detail))
            && (forall k | k in board && !(k.0 == category && board[k].state.Pending?) :: after[k] == board[k])
            && CompleteAll(after, category) == after
  {
  }

  // ---------- threads ----------

  /** What a thread is doing inside its critical section. */
  datatype Local =
    | Idle
    | Updating(key: Key, entry: Entry)
    | Updated
    /** Entries still to visit, and the one whose state is written but whose detail is not. */
    | Completing(category: string, todo: set<Key>, half: Option<Key>)
    /** Entries still to copy, and the copies so far. */
    | Rendering(todo: set<Key>, copy: Board)

  /** The shared board, the lock, every thread, and what has been observed: the boards at each
      release of the lock, and the snapshots handed to the renderer. */
  datatype System = System(
    board: Board,
    holder: Option<nat>,
    threads: map<nat, Local>,
    history: seq<Board>,
    rendered: seq<Board>)

  ghost predicate Init(s: System) {
    && s.holder.None?
    && (forall t | t in s.threads :: s.threads[t].Idle?)
    && s.history == [s.board] && s.rendered == []
  }

  function Moved(s: System, t: nat, l: Local): System {
    s.(threads := s.threads[t := l])
  }

  /** A thread takes the free lock and starts an operation. */
  ghost predicate Acquire(s: System, s': System, t: nat) {
    && t in s.threads && s.threads[t].Idle? && s.holder.None?
    && exists l: Local ::
         && s' == Moved(s, t, l).(holder := Some(t))
         && (match l
             case Updating(_, _) => true
             case Completing(c, todo, half) => todo == InCategory(s.board, c) && half.None?
             case Rendering(todo, copy) => todo == s.board.Keys && copy == map[]
             case _ => false)
  }

  /** A thread gives the lock back; a renderer publishes its copy. */
  ghost predicate Release(s: System, s': System, t: nat) {
    && t in s.threads
    && (match s.threads[t]
        case Updated => true
        case Completing(_, todo, half) => todo == {} && half.None?
        case Rendering(todo, _) => todo == {}
        case _ => false)
    && s' == Moved(s, t, Idle).(
         holder := None,
         history := s.history + [s.board],
         rendered := s.rendered + if s.threads[t].Rendering? then [s.threads[t].copy] else [])
  }

  /** One access to the board inside the critical section. */
  ghost predicate Work(s: System, s': System, t: nat) {
    t in s.threads &&
    match s.threads[t]
    case Updating(key, e) => s' == Moved(s, t, Updated).(board := SetStep(s.board, key, e))
    case Completing(c, todo, Some(k)) =>
      && k in s.board
      && s' == Moved(s, t, Completing(c, todo, None)).(
           board := if s.board[k].detail == "" then s.board[k := Entry(s.board[k].state, "done")] else s.board)
    case Completing(c, todo, None) =>
      exists k | k in todo && k in s.board ::
        if s.board[k].state.Pending? then
          s' == Moved(s, t,
              Completing(c, todo - {k}, Some(k))).(board := s.board[k := Entry(Complete, s.board[k].detail)])
        else s' == Moved(s, t, Completing(c, todo - {k}, None))
    case Rendering(todo, copy) =>
      exists k | k in todo && k in s.board :: s' == Moved(s, t, Rendering(todo - {k}, copy[k := s.board[k]]))
    case _ => false
  }

  ghost predicate Next(s: System, s': System) {
    exists t: nat :: Acquire(s, s', t) || Release(s, s', t) || Work(s, s', t)
  }

  ghost predicate Run(states: seq<System>) {
    && states != [] && Init(states[0])
    && forall i | 0 <= i < |states| - 1 :: Next(states[i], states[i + 1])
  }

  // ---------- the invariant ----------

  function Last(s: System): Board
    requires s.history != []
  {
    s.history[|s.history| - 1]
  }

  /** One whole operation leads from one board to the other. */
  ghost predicate Whole(before: Board, after: Board) {
    || before == after
    || (exists k: Key, e: Entry :: after == SetStep(before, k, e))
    || (exists c: string :: after == CompleteAll(before, c))
  }

  /** How far the thread in the critical section has taken the board from the last released one. */
  ghost predicate Progress(base: Board, board: Board, l: Local) {
    match l
    case Idle => false
    case Updating(_, _) => board == base
    case Updated => Whole(base, board)
    case Completing(c, todo, half) =>
      && todo <= InCategory(base, c)
      && (half.Some? ==> half.value in InCategory(base, c) - todo && base[half.value].state.Pending?)
      && board == map k | k in base ::
           if k.0 != c || k in todo then base[k]
           else if half == Some(k) then Entry(Complete, base[k].detail)
           else Done(base[k])
    case Rendering(todo, copy) =>
      && board == base && todo <= base.Keys
      && copy == map k | k in base && k !in todo :: base[k]
  }

  ghost predicate Inv(s: System) {
    && s.history != []
    && (forall i | 0 <= i < |s.history| - 1 :: Whole(s.history[i], s.history[i + 1]))
    && (forall i | 0 <= i < |s.history| :: s.history[i].Keys == s.board.Keys)
    && (forall r | r in s.rendered :: r in s.history)
    && (match s.holder
        case None => s.board == Last(s) && forall t | t in s.threads :: s.threads[t].Idle?
        case Some(h) =>
          && h in s.threads && Progress(Last(s), s.board, s.threads[h])
          && forall t | t in s.threads && t != h :: s.threads[t].Idle?)
  }

  // ---------- every step keeps it ----------

  lemma AcquireKeeps(s: System, s': System, t: nat)
    requires Inv(s) && Acquire(s, s', t)
    ensures Inv(s')
  {
    var l := s'.threads[t];
    assert Progress(Last(s), s.board, l) by {
      match l
      case Completing(c, todo, half) =>
        assert s.board == map k | k in s.board :: if k.0 != c || k in todo then s.board[k] else Done(s.board[k]);
      case _ =>
    }
  }

  lemma ReleaseWhole(base: Board, board: Board, l: Local)
    requires Progress(base, board, l)
    requires match l
             case Updated => true
             case Completing(_, todo, half) => todo == {} && half.None?
             case Rendering(todo, _) => todo == {}
             case _ => false
    ensures Whole(base, board) && (l.Rendering? ==> l.copy == base == board)
  {
    match l
    case Completing(c, _, _) => assert board == CompleteAll(base, c);
    case Rendering(_, copy) => assert copy == base;
    case _ =>
  }

  lemma ReleaseKeeps(s: System, s': System, t: nat)
    requires Inv(s) && Release(s, s', t)
    ensures Inv(s')
  {
    var l := s.threads[t];
    ReleaseWhole(Last(s), s.board, l);
    var n := |s.history|;
    forall i | 0 <= i < |s'.history| - 1 ensures Whole(s'.history[i], s'.history[i + 1]) {
      if i == n - 1 { assert s'.history[i] == Last(s) && s'.history[n] == s.board; }
    }
    assert s'.history[n] == s.board;
    forall r | r in s'.rendered ensures r in s'.history {
      if r in s.rendered {
        assert r in s.history;
      } else {
        assert r == l.copy == s'.history[n];
      }
    }
  }

  lemma WorkProgress(base: Board, s: System, s': System, t: nat)
    requires t in s.threads && Progress(base, s.board, s.threads[t]) && Work(s, s', t)
    ensures Progress(base, s'.board, s'.threads[t]) && s'.board.Keys == s.board.Keys
  {
    match s.threads[t]
    case Completing(c, todo, Some(k)) =>
    case Completing(c, todo, None) =>
    case Rendering(todo, copy) =>
    case _ =>
  }

  lemma WorkFrame(s: System, s': System, t: nat)
    requires Work(s, s', t)
    ensures s'.history == s.history && s'.rendered == s.rendered && s'.holder == s.holder
    ensures t in s'.threads && s'.threads == s.threads[t := s'.threads[t]]
  {
  }

  lemma WorkKeeps(s: System, s': System, t: nat)
    requires Inv(s) && Work(s, s', t)
    ensures Inv(s')
  {
    assert s.holder == Some(t);
    WorkProgress(Last(s), s, s', t);
    WorkFrame(s, s', t);
  }

  lemma {:induction false} RunInvariant(states: seq<System>)
    requires Run(states)
    ensures forall i | 0 <= i < |states| :: Inv(states[i])
  {
    var n := |states| - 1;
    if n > 0 {
      var init := states[..n];
      forall i | 0 <= i < n - 1 ensures Next(init[i], init[i + 1]) {
        assert init[i] == states[i] && init[i + 1] == states[i + 1];
      }
      RunInvariant(init);
      assert init[n - 1] == states[n - 1] && Next(states[n - 1], states[n - 1 + 1]);
      var s, s' := states[n - 1], states[n];
      var t: nat :| Acquire(s, s', t) || Release(s, s', t) || Work(s, s', t);
      if Acquire(s, s', t) { AcquireKeeps(s, s', t); }
      else if Release(s, s', t) { ReleaseKeeps(s, s', t); }
      else { WorkKeeps(s, s', t); }
    }
  }

  /** Main theorem: under every interleaving, each rendered snapshot is a board between whole
      operations, consecutive such boards are one whole operation apart, and the set of steps never
      changes. */
  lemma SnapshotsAreAtomic(states: seq<System>, i: nat)
    requires Run(states) && i < |states|
    ensures var s := states[i];
            && (forall r | r in s.rendered :: r in s.history)
            && (forall j | 0 <= j < |s.history| - 1 :: Whole(s.history[j], s.history[j + 1]))
            && (forall b | b in s.history :: b.Keys == s.board.Keys)
  {
    RunInvariant(states);
    var s := states[i];
    assert Inv(s);
    forall b | b in s.history ensures b.Keys == s.board.Keys {
      var j :| 0 <= j < |s.history| && s.history[j] == b;
    }
  }
}
