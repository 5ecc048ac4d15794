/**
 * The realization walk of ZoomableCanvas, as pure functions over the ordered list of realized
 * item ids (the RealizedItems linked list, here a sequence).
 *
 * The walk is an enumerator resumed across frames. Each MoveNext either places the next id of the
 * query sequence at the cursor (forward phase), or visits one node of the list behind the placed
 * prefix, from the last node backwards, releasing it unless its container holds mouse capture or
 * keyboard focus (tail phase). The enumerator's saved position is the datatype Walk.
 */
module Realization {
  import opened Options

  /** Calls the walk makes into the panel: VirtualPanel.RealizeItem and VirtualizeItem. */
  datatype Action = Realize(id: int) | Virtualize(id: int)

  /**
   * Start: created, not yet moved. Forward(query, k): query[..k] has been placed and the cursor
   * (lastNode) stands after position k - 1. Backward(p, c): the placed prefix has length p and the
   * nodes at positions p .. c - 1 are still to be visited, from c - 1 down. Done: finished.
   */
  datatype Walk = Start | Forward(query: seq<int>, k: nat) | Backward(p: nat, c: nat) | Done

  /** The effect of one MoveNext: the new list and position, the calls made, and whether it yielded. */
  datatype Moved = Moved(realized: seq<int>, walk: Walk, actions: seq<Action>, more: bool)

  predicate Distinct(s: seq<int>)
  {
    forall i, j :: 0 <= i < j < |s| ==> s[i] != s[j]
  }

  /**
   * LinkedList.FindNext(lastNode, value): the first node after the cursor holding the value.
   * The positions are those of the list; from is the position just after lastNode.
   */
  function FindNext(s: seq<int>, from: nat, x: int): (r: Option<nat>)
    requires from <= |s|
    ensures r.Some? ==> from <= r.value < |s| && s[r.value] == x && x !in s[from..r.value]
    ensures r.None? <==> x !in s[from..]
    decreases |s| - from
  {
    if from == |s| then None
    else if s[from] == x then Some(from)
    else
      var r := FindNext(s, from + 1, x);
      assert s[from..] == [s[from]] + s[from + 1..];
      if r.Some? then assert s[from..r.value] == [s[from]] + s[from + 1..r.value]; r else r
  }

  /**
   * One pass of the foreach body: the query id x is placed at the cursor position p. A node holding
   * x further on is unlinked and relinked at the cursor; otherwise a new node is made for it.
   */
  function Place(s: seq<int>, p: nat, x: int): seq<int>
    requires p <= |s|
  {
    match FindNext(s, p, x)
    case None => s[..p] + [x] + s[p..]
    case Some(j) => if j == p then s else s[..p] + [x] + s[p..j] + s[j + 1..]
  }

  /** Placing grows the list by one exactly when a new node was made. */
  lemma {:induction false} PlaceLength(s: seq<int>, p: nat, x: int)
    requires p <= |s|
    ensures |Place(s, p, x)| == if FindNext(s, p, x).None? then |s| + 1 else |s|
  {
  }

  /** When no node after the cursor holds x, a new node for x is linked in at the cursor. */
  lemma {:induction false} PlaceNew(P: seq<int>, W: seq<int>, x: int)
    requires FindNext(P + W, |P|, x).None?
    ensures x !in W && Place(P + W, |P|, x) == P + [x] + W
  {
    var s := P + W;
    assert s[..|P|] == P && s[|P|..] == W;
  }

  /**
   * When the first node after the cursor holding x is the j-th one behind it, that node is unlinked
   * there and relinked at the cursor; nothing else moves.
   */
  lemma {:induction false} PlaceRelink(P: seq<int>, W: seq<int>, x: int)
    requires FindNext(P + W, |P|, x).Some?
    ensures var j := FindNext(P + W, |P|, x).value - |P|;
      0 <= j < |W| && W[j] == x && x !in W[..j] && Place(P + W, |P|, x) == P + [x] + (W[..j] + W[j + 1..])
  {
    var j := FindNext(P + W, |P|, x).value - |P|;
    Slices(P, W, j);
  }

  /** The pieces of P + W around the j-th element of W. */
  lemma Slices(P: seq<int>, W: seq<int>, j: nat)
    requires j < |W|
    ensures var s := P + W;
      && s[..|P|] == P && s[|P|..|P| + j] == W[..j] && s[|P| + j] == W[j] && s[|P| + j + 1..] == W[j + 1..]
      && (j == 0 ==> s == P + [W[0]] + (W[..j] + W[j + 1..]))
      && s[..|P|] + [W[j]] + s[|P|..|P| + j] + s[|P| + j + 1..] == P + [W[j]] + (W[..j] + W[j + 1..])
  {
    var s := P + W;
    assert s[..|P|] == P && s[|P|..|P| + j] == W[..j] && s[|P| + j + 1..] == W[j + 1..];
    if j == 0 {
      assert W == [W[0]] + W[1..];
    }
  }

  /** The part of the walk after the query: visit the node at c - 1 or finish when c reaches the prefix. */
  function TailStep(s: seq<int>, pinned: set<int>, p: nat, c: nat): Moved
    requires p <= c <= |s|
  {
    if c > p then
      var id := s[c - 1];
      if id in pinned then Moved(s, Backward(p, c - 1), [], true)
      else Moved(s[..c - 1] + s[c..], Backward(p, c - 1), [Virtualize(id)], true)
    else
      Moved(s, Done, [], false)
  }

  /** A MoveNext in the forward phase: place q[k], or, past the end of the query, begin the tail phase. */
  function ForwardStep(s: seq<int>, pinned: set<int>, q: seq<int>, k: nat): Moved
    requires k <= |q| && k <= |s|
  {
    if k < |q| then
      var x := q[k];
      var acts := if FindNext(s, k, x).None? then [Realize(x)] else [];
      Moved(Place(s, k, x), Forward(q, k + 1), acts, true)
    else
      TailStep(s, pinned, k, |s|)
  }

  predicate Fits(s: seq<int>, w: Walk)
  {
    match w
    case Start => true
    case Forward(q, k) => k <= |q| && k <= |s|
    case Backward(p, c) => p <= c <= |s|
    case Done => true
  }

  /** Bounds the MoveNext calls still to come: each yielding call lowers it. */
  function Measure(s: seq<int>, w: Walk, viewQuery: seq<int>): nat
    requires Fits(s, w)
  {
    match w
    case Start => 2 * |viewQuery| + |s| + 3
    case Forward(q, k) => 2 * (|q| - k) + (|s| - k) + 2
    case Backward(p, c) => c - p + 1
    case Done => 0
  }

  /**
   * One MoveNext of the walk enumerator. viewQuery is the (already capped) sequence of ids the spatial
   * index yields for the realization rectangle at the moment a Start walk is first moved.
   */
  function MoveNext(s: seq<int>, pinned: set<int>, viewQuery: seq<int>, w: Walk): (m: Moved)
    requires Fits(s, w)
    ensures w.Done? ==> !m.more
    ensures !m.more ==> m.walk == Done && m.realized == s && m.actions == []
    ensures |m.actions| <= 1 && |m.realized| <= |s| + 1
  {
    match w
    case Start => ForwardStep(s, pinned, viewQuery, 0)
    case Forward(q, k) => ForwardStep(s, pinned, q, k)
    case Backward(p, c) => TailStep(s, pinned, p, c)
    case Done => Moved(s, Done, [], false)
  }

  /**
   * An enumerator's MoveNext as a function of the realized list and the saved position. The driver
   * in RealizeOverride(items, state) works with any enumerator; the walk above is the one the canvas
   * creates.
   */
  type Stepper = (seq<int>, Walk) -> Moved

  /** What the driver relies on from one move made at a consistent position. */
  predicate StepOk(s: seq<int>, w: Walk, m: Moved, viewQuery: seq<int>)
    requires Fits(s, w)
  {
    && Fits(m.realized, m.walk)
    && (m.more ==> Measure(m.realized, m.walk, viewQuery) < Measure(s, w, viewQuery))
    && (!m.more ==> m.walk == Done && m.realized == s && m.actions == [])
  }

  /** Every move of the enumerator behaves as StepOk says. */
  ghost predicate Steps(step: Stepper, viewQuery: seq<int>)
  {
    forall s, w {:trigger step(s, w)} :: Fits(s, w) ==> StepOk(s, w, step(s, w), viewQuery)
  }

  /**
   * Every MoveNext leaves a consistent position; one that yields brings the walk closer to its end,
   * and one that returns false has finished and changed nothing.
   */
  lemma {:induction false} MoveNextShape(s: seq<int>, pinned: set<int>, viewQuery: seq<int>, w: Walk)
    requires Fits(s, w)
    ensures StepOk(s, w, MoveNext(s, pinned, viewQuery, w), viewQuery)
  {
    match w
    case Start =>
      if 0 < |viewQuery| { PlaceLength(s, 0, viewQuery[0]); }
    case Forward(q, k) =>
      if k < |q| { PlaceLength(s, k, q[k]); }
    case Backward(p, c) =>
    case Done =>
  }

  /**
   * The walk enumerator of the canvas, for a given set of protected containers and view query.
   * MoveNext is only ever called at a consistent position; elsewhere the function answers false.
   */
  function Enumerator(pinned: set<int>, viewQuery: seq<int>): (step: Stepper)
    ensures forall s, w {:trigger step(s, w)} :: Fits(s, w) ==> step(s, w) == MoveNext(s, pinned, viewQuery, w)
    ensures Steps(step, viewQuery)
  {
    var step := (s: seq<int>, w: Walk) =>
      if Fits(s, w) then MoveNext(s, pinned, viewQuery, w) else Moved(s, Done, [], false);
    assert Steps(step, viewQuery) by {
      forall s, w | Fits(s, w) ensures StepOk(s, w, step(s, w), viewQuery) {
        MoveNextShape(s, pinned, viewQuery, w);
      }
    }
    step
  }

  /** The effect of moving the walk until MoveNext returns false. */
  datatype Outcome = Outcome(realized: seq<int>, actions: seq<Action>, moves: nat)

  function Run(step: Stepper, viewQuery: seq<int>, s: seq<int>, w: Walk): (o: Outcome)
    requires Steps(step, viewQuery) && Fits(s, w)
    decreases Measure(s, w, viewQuery)
  {
    var m := step(s, w);
    if !m.more then Outcome(s, [], 0)
    else
      var o := Run(step, viewQuery, m.realized, m.walk);
      Outcome(o.realized, m.actions + o.actions, o.moves + 1)
  }

  /**
   * The effect of RealizeOverride's loop: up to n MoveNext calls, one after the other; finished
   * when one of them returned false (and the driver then drops the enumerator).
   */
  datatype Progress = Progress(realized: seq<int>, walk: Walk, actions: seq<Action>, finished: bool)

  function Advance(step: Stepper, viewQuery: seq<int>, s: seq<int>, w: Walk, n: nat): (g: Progress)
    requires Steps(step, viewQuery) && Fits(s, w)
    ensures Fits(g.realized, g.walk)
    ensures g.finished ==> g.walk == Done
    decreases n
  {
    if n == 0 then Progress(s, w, [], false)
    else
      var g := Advance(step, viewQuery, s, w, n - 1);
      if g.finished then g
      else
        var m := step(g.realized, g.walk);
        if m.more then Progress(m.realized, m.walk, g.actions + m.actions, false)
        else Progress(g.realized, Done, g.actions, true)
  }

  /** An advance of n > 0 moves that has not finished is one of n - 1 moves and then a yielding move. */
  lemma {:induction false} AdvanceLastMove(step: Stepper, viewQuery: seq<int>, s: seq<int>, w: Walk, n: nat)
    requires Steps(step, viewQuery) && Fits(s, w) && n > 0 && !Advance(step, viewQuery, s, w, n).finished
    ensures var g0 := Advance(step, viewQuery, s, w, n - 1); var m := step(g0.realized, g0.walk);
      !g0.finished && m.more && Advance(step, viewQuery, s, w, n) == Progress(m.realized, m.walk, g0.actions + m.actions, false)
  {
  }

  /**
   * An advance that has not finished leaves a walk whose remaining run completes the whole walk:
   * the same final list, the remaining calls after the calls made so far, n fewer yields.
   */
  lemma {:induction false} AdvanceThenRun(step: Stepper, viewQuery: seq<int>, s: seq<int>, w: Walk, n: nat)
    requires Steps(step, viewQuery) && Fits(s, w) && !Advance(step, viewQuery, s, w, n).finished
    ensures var g := Advance(step, viewQuery, s, w, n);
      var rest := Run(step, viewQuery, g.realized, g.walk);
      var o := Run(step, viewQuery, s, w);
      rest.realized == o.realized && g.actions + rest.actions == o.actions && rest.moves + n == o.moves
    decreases n
  {
    if n > 0 {
      var g0 := Advance(step, viewQuery, s, w, n - 1);
      AdvanceLastMove(step, viewQuery, s, w, n);
      AdvanceThenRun(step, viewQuery, s, w, n - 1);
      var m := step(g0.realized, g0.walk);
      var g := Advance(step, viewQuery, s, w, n);
      var rest := Run(step, viewQuery, g.realized, g.walk);
      RunAfterMove(step, viewQuery, g0.realized, g0.walk, m, rest);
      assert g0.actions + (m.actions + rest.actions) == g.actions + rest.actions;
    }
  }

  /**
   * The step budget: n MoveNext calls finish the walk exactly when the walk yields fewer than n
   * times, and a finished advance has done everything the whole walk does.
   */
  lemma {:induction false} AdvanceFinishes(step: Stepper, viewQuery: seq<int>, s: seq<int>, w: Walk, n: nat)
    requires Steps(step, viewQuery) && Fits(s, w)
    ensures var g := Advance(step, viewQuery, s, w, n); var o := Run(step, viewQuery, s, w);
      (g.finished <==> o.moves < n) && (g.finished ==> g.realized == o.realized && g.actions == o.actions)
    decreases n
  {
    if n > 0 {
      AdvanceFinishes(step, viewQuery, s, w, n - 1);
      var g0 := Advance(step, viewQuery, s, w, n - 1);
      if !g0.finished {
        AdvanceThenRun(step, viewQuery, s, w, n - 1);
        var rest := Run(step, viewQuery, g0.realized, g0.walk);
        var m := step(g0.realized, g0.walk);
        if !m.more {
          assert rest == Outcome(g0.realized, [], 0);
          assert g0.actions + [] == g0.actions;
        } else {
          assert rest.moves >= 1;
        }
      }
    }
  }

  // ---------------------------------------------------------------------------------------------
  // What a whole walk does.

  /** The ids of t that are not in ex, in order. */
  function Without(t: seq<int>, ex: seq<int>): seq<int>
  {
    if t == [] then []
    else (if t[0] in ex then [] else [t[0]]) + Without(t[1..], ex)
  }

  /** The ids of t whose containers hold capture or focus, in order. */
  function Survivors(t: seq<int>, pinned: set<int>): seq<int>
  {
    if t == [] then []
    else
      var n := |t| - 1;
      Survivors(t[..n], pinned) + (if t[n] in pinned then [t[n]] else [])
  }

  /** The release calls of the tail phase: from the last node backwards, every unprotected id. */
  function Evictions(t: seq<int>, pinned: set<int>): seq<Action>
  {
    if t == [] then []
    else
      var n := |t| - 1;
      (if t[n] in pinned then [] else [Virtualize(t[n])]) + Evictions(t[..n], pinned)
  }

  /** The realize calls of the forward phase: every query id not already realized, in query order. */
  function Realizations(q: seq<int>, present: seq<int>): seq<Action>
  {
    if q == [] then []
    else (if q[0] in present then [] else [Realize(q[0])]) + Realizations(q[1..], present)
  }

  lemma {:induction false} WithoutMembers(t: seq<int>, ex: seq<int>)
    ensures forall y :: y in Without(t, ex) <==> y in t && y !in ex
  {
    if t != [] {
      WithoutMembers(t[1..], ex);
      assert t == [t[0]] + t[1..];
    }
  }

  lemma {:induction false} SurvivorsMembers(t: seq<int>, pinned: set<int>)
    ensures forall y :: y in Survivors(t, pinned) <==> y in t && y in pinned
  {
    if t != [] {
      var n := |t| - 1;
      SurvivorsMembers(t[..n], pinned);
      assert t == t[..n] + [t[n]];
    }
  }

  lemma {:induction false} EvictionsMembers(t: seq<int>, pinned: set<int>)
    ensures forall a :: a in Evictions(t, pinned) <==> a.Virtualize? && a.id in t && a.id !in pinned
  {
    if t != [] {
      var n := |t| - 1;
      EvictionsMembers(t[..n], pinned);
      assert t == t[..n] + [t[n]];
    }
  }

  lemma {:induction false} RealizationsMembers(q: seq<int>, present: seq<int>)
    ensures forall a :: a in Realizations(q, present) <==> a.Realize? && a.id in q && a.id !in present
  {
    if q != [] {
      RealizationsMembers(q[1..], present);
      assert q == [q[0]] + q[1..];
    }
  }

  lemma {:induction false} RealizationsCongruent(q: seq<int>, a: seq<int>, b: seq<int>)
    requires forall i :: 0 <= i < |q| ==> (q[i] in a <==> q[i] in b)
    ensures Realizations(q, a) == Realizations(q, b)
  {
    if q != [] {
      RealizationsCongruent(q[1..], a, b);
    }
  }

  lemma {:induction false} WithoutTwice(t: seq<int>, x: int, ex: seq<int>)
    ensures Without(Without(t, [x]), ex) == Without(t, [x] + ex)
  {
    if t != [] {
      WithoutTwice(t[1..], x, ex);
      var rest := Without(t[1..], [x]);
      if t[0] == x {
        assert t[0] in [x] + ex;
        assert Without(t, [x]) == rest;
        assert Without(t, [x] + ex) == Without(t[1..], [x] + ex);
      } else {
        assert Without(t, [x]) == [t[0]] + rest;
        var u := [t[0]] + rest;
        assert u[0] == t[0] && u[1..] == rest;
        assert t[0] in ex <==> t[0] in [x] + ex;
      }
    }
  }

  /** In a list without repeats, unlinking the node at j is filtering out its id. */
  lemma {:induction false} UnlinkIsWithout(t: seq<int>, j: nat)
    requires j < |t| && Distinct(t)
    ensures t[..j] + t[j + 1..] == Without(t, [t[j]])
  {
    if j == 0 {
      WithoutNone(t[1..], [t[0]]);
    } else {
      UnlinkIsWithout(t[1..], j - 1);
      assert t[1..][..j - 1] + t[1..][j..] == Without(t[1..], [t[j]]);
      assert t[..j] + t[j + 1..] == [t[0]] + (t[1..][..j - 1] + t[1..][j..]);
    }
  }

  lemma {:induction false} WithoutNone(t: seq<int>, ex: seq<int>)
    requires forall i :: 0 <= i < |t| ==> t[i] !in ex
    ensures Without(t, ex) == t
  {
    if t != [] {
      WithoutNone(t[1..], ex);
      assert Without(t, ex) == [t[0]] + Without(t[1..], ex);
      assert t == [t[0]] + t[1..];
    }
  }

  lemma {:induction false} WithoutAllOf(t: seq<int>, ex: seq<int>)
    requires forall i :: 0 <= i < |t| ==> t[i] in ex
    ensures Without(t, ex) == []
  {
    if t != [] {
      WithoutAllOf(t[1..], ex);
      assert Without(t, ex) == Without(t[1..], ex);
    }
  }

  lemma {:induction false} WithoutAppend(a: seq<int>, b: seq<int>, ex: seq<int>)
    ensures Without(a + b, ex) == Without(a, ex) + Without(b, ex)
  {
    if a == [] {
      assert a + b == b;
    } else {
      assert (a + b)[0] == a[0];
      assert (a + b)[1..] == a[1..] + b;
      WithoutAppend(a[1..], b, ex);
    }
  }

  lemma {:induction false} WithoutDistinct(t: seq<int>, ex: seq<int>)
    requires Distinct(t)
    ensures Distinct(Without(t, ex))
  {
    if t != [] {
      WithoutDistinct(t[1..], ex);
      WithoutMembers(t[1..], ex);
      assert t[0] !in t[1..];
    }
  }

  lemma {:induction false} SurvivorsDistinct(t: seq<int>, pinned: set<int>)
    requires Distinct(t)
    ensures Distinct(Survivors(t, pinned))
  {
    if t != [] {
      var n := |t| - 1;
      SurvivorsDistinct(t[..n], pinned);
      SurvivorsMembers(t[..n], pinned);
      assert t[n] !in t[..n];
    }
  }

  lemma {:induction false} SurvivorsAllPinned(t: seq<int>, pinned: set<int>)
    requires forall i :: 0 <= i < |t| ==> t[i] in pinned
    ensures Survivors(t, pinned) == t && Evictions(t, pinned) == []
  {
    if t != [] {
      var n := |t| - 1;
      SurvivorsAllPinned(t[..n], pinned);
      assert Survivors(t, pinned) == Survivors(t[..n], pinned) + [t[n]];
      assert Evictions(t, pinned) == Evictions(t[..n], pinned);
      assert t == t[..n] + [t[n]];
    }
  }

  lemma {:induction false} RealizationsAllPresent(q: seq<int>, present: seq<int>)
    requires forall i :: 0 <= i < |q| ==> q[i] in present
    ensures Realizations(q, present) == []
  {
    if q != [] {
      RealizationsAllPresent(q[1..], present);
      assert Realizations(q, present) == Realizations(q[1..], present);
    }
  }

  /** A run that starts with a yielding MoveNext is that move followed by the run from where it leaves. */
  lemma {:induction false} RunAfterMove(step: Stepper, viewQuery: seq<int>, s: seq<int>, w: Walk, m: Moved, o: Outcome)
    requires Steps(step, viewQuery) && Fits(s, w) && step(s, w) == m && m.more
    requires Run(step, viewQuery, m.realized, m.walk) == o
    ensures Run(step, viewQuery, s, w) == Outcome(o.realized, m.actions + o.actions, o.moves + 1)
  {
  }

  /**
   * The run of the canvas's own enumerator, unfolded through MoveNext. It is the same outcome as
   * Run(Enumerator(pinned, viewQuery), ...) (RunIsWalked); the walk lemmas below are stated on it.
   */
  function Walked(s: seq<int>, pinned: set<int>, viewQuery: seq<int>, w: Walk): Outcome
    requires Fits(s, w)
    decreases Measure(s, w, viewQuery)
  {
    MoveNextShape(s, pinned, viewQuery, w);
    var m := MoveNext(s, pinned, viewQuery, w);
    if !m.more then Outcome(s, [], 0)
    else
      var o := Walked(m.realized, pinned, viewQuery, m.walk);
      Outcome(o.realized, m.actions + o.actions, o.moves + 1)
  }

  lemma {:induction false} RunIsWalked(pinned: set<int>, viewQuery: seq<int>, s: seq<int>, w: Walk)
    requires Fits(s, w)
    ensures Run(Enumerator(pinned, viewQuery), viewQuery, s, w) == Walked(s, pinned, viewQuery, w)
    decreases Measure(s, w, viewQuery)
  {
    var m := MoveNext(s, pinned, viewQuery, w);
    MoveNextShape(s, pinned, viewQuery, w);
    if m.more {
      RunIsWalked(pinned, viewQuery, m.realized, m.walk);
    }
  }

  lemma {:induction false} WalkedAfterMove(s: seq<int>, pinned: set<int>, viewQuery: seq<int>, w: Walk, m: Moved, o: Outcome)
    requires Fits(s, w) && MoveNext(s, pinned, viewQuery, w) == m && m.more
    requires Fits(m.realized, m.walk) && Walked(m.realized, pinned, viewQuery, m.walk) == o
    ensures Walked(s, pinned, viewQuery, w) == Outcome(o.realized, m.actions + o.actions, o.moves + 1)
  {
  }

  /** One tail MoveNext on P + U + V with U not empty: it visits the last node of U. */
  lemma {:induction false} TailMove(pinned: set<int>, viewQuery: seq<int>, P: seq<int>, U: seq<int>, V: seq<int>)
    requires |U| > 0
    ensures var s := P + U + V; var n := |U| - 1;
      var m := MoveNext(s, pinned, viewQuery, Backward(|P|, |P| + |U|));
      m.more && m.walk == Backward(|P|, |P| + n) &&
      (U[n] in pinned ==> m.realized == s && m.actions == []) &&
      (U[n] !in pinned ==> m.realized == P + U[..n] + V && m.actions == [Virtualize(U[n])])
  {
    var s := P + U + V;
    var c := |P| + |U|;
    assert s[c - 1] == U[|U| - 1];
    assert s[..c - 1] + s[c..] == P + U[..|U| - 1] + V;
  }

  /**
   * The tail phase from Backward(|P|, |P| + |U|) on P + U + V, where U are the nodes still to visit:
   * it keeps the protected ids of U, calls VirtualizeItem on the others from the last backwards, and
   * yields once per node of U.
   */
  lemma {:induction false} RunTail(pinned: set<int>, viewQuery: seq<int>, P: seq<int>, U: seq<int>, V: seq<int>)
    ensures Walked(P + U + V, pinned, viewQuery, Backward(|P|, |P| + |U|)) ==
      Outcome(P + Survivors(U, pinned) + V, Evictions(U, pinned), |U|)
    decreases |U|
  {
    if U == [] {
      TailDone(pinned, viewQuery, P, U, V);
    } else {
      var n := |U| - 1;
      if U[n] in pinned {
        RunTail(pinned, viewQuery, P, U[..n], [U[n]] + V);
        TailKeep(pinned, viewQuery, P, U, V);
      } else {
        RunTail(pinned, viewQuery, P, U[..n], V);
        TailDrop(pinned, viewQuery, P, U, V);
      }
    }
  }

  /** No node left to visit: the walk finishes. */
  lemma {:induction false} TailDone(pinned: set<int>, viewQuery: seq<int>, P: seq<int>, U: seq<int>, V: seq<int>)
    requires U == []
    ensures Walked(P + U + V, pinned, viewQuery, Backward(|P|, |P| + |U|)) ==
      Outcome(P + Survivors(U, pinned) + V, Evictions(U, pinned), |U|)
  {
    assert P + U + V == P + [] + V;
  }

  /** The last node of U holds a protected id: it stays, and the rest of U is visited in front of it. */
  lemma {:induction false} TailKeep(pinned: set<int>, viewQuery: seq<int>, P: seq<int>, U: seq<int>, V: seq<int>)
    requires |U| > 0 && U[|U| - 1] in pinned
    requires var n := |U| - 1;
      Walked(P + U[..n] + ([U[n]] + V), pinned, viewQuery, Backward(|P|, |P| + n)) ==
        Outcome(P + Survivors(U[..n], pinned) + ([U[n]] + V), Evictions(U[..n], pinned), n)
    ensures Walked(P + U + V, pinned, viewQuery, Backward(|P|, |P| + |U|)) ==
      Outcome(P + Survivors(U, pinned) + V, Evictions(U, pinned), |U|)
  {
    var s := P + U + V;
    KeptLast(pinned, P, U, V);
    TailMove(pinned, viewQuery, P, U, V);
    var m := MoveNext(s, pinned, viewQuery, Backward(|P|, |P| + |U|));
    WalkedAfterMove(s, pinned, viewQuery, Backward(|P|, |P| + |U|), m, Walked(m.realized, pinned, viewQuery, m.walk));
  }

  /** The list and the survivors, with a protected last node of U moved in front of V. */
  lemma {:induction false} KeptLast(pinned: set<int>, P: seq<int>, U: seq<int>, V: seq<int>)
    requires |U| > 0 && U[|U| - 1] in pinned
    ensures var n := |U| - 1;
      && P + U + V == P + U[..n] + ([U[n]] + V)
      && P + Survivors(U, pinned) + V == P + Survivors(U[..n], pinned) + ([U[n]] + V)
      && Evictions(U, pinned) == Evictions(U[..n], pinned)
  {
    var n := |U| - 1;
    assert U == U[..n] + [U[n]];
    assert Survivors(U, pinned) == Survivors(U[..n], pinned) + [U[n]];
  }

  /** The last node of U holds an unprotected id: it is released and unlinked. */
  lemma {:induction false} TailDrop(pinned: set<int>, viewQuery: seq<int>, P: seq<int>, U: seq<int>, V: seq<int>)
    requires |U| > 0 && U[|U| - 1] !in pinned
    requires var n := |U| - 1;
      Walked(P + U[..n] + V, pinned, viewQuery, Backward(|P|, |P| + n)) ==
        Outcome(P + Survivors(U[..n], pinned) + V, Evictions(U[..n], pinned), n)
    ensures Walked(P + U + V, pinned, viewQuery, Backward(|P|, |P| + |U|)) ==
      Outcome(P + Survivors(U, pinned) + V, Evictions(U, pinned), |U|)
  {
    var s := P + U + V;
    var n := |U| - 1;
    assert U == U[..n] + [U[n]];
    TailMove(pinned, viewQuery, P, U, V);
    var m := MoveNext(s, pinned, viewQuery, Backward(|P|, |P| + |U|));
    WalkedAfterMove(s, pinned, viewQuery, Backward(|P|, |P| + |U|), m, Walked(m.realized, pinned, viewQuery, m.walk));
    assert Survivors(U, pinned) == Survivors(U[..n], pinned);
  }

  /**
   * Placing q[k] at the cursor of q[..k] + W: the list becomes q[..k + 1] followed by W without
   * q[k], and a new node is made exactly when q[k] is not in W.
   */
  lemma {:induction false} PlaceStep(q: seq<int>, k: nat, W: seq<int>)
    requires k < |q| && Distinct(W)
    ensures var s := q[..k] + W;
      (FindNext(s, k, q[k]).None? <==> q[k] !in W) &&
      Place(s, k, q[k]) == q[..k + 1] + Without(W, [q[k]])
  {
    var x := q[k];
    var P := q[..k];
    assert |P| == k && q[..k + 1] == P + [x];
    if FindNext(P + W, |P|, x).None? {
      PlaceNew(P, W, x);
      assert forall i :: 0 <= i < |W| ==> W[i] !in [x];
      WithoutNone(W, [x]);
    } else {
      PlaceRelink(P, W, x);
      var j := FindNext(P + W, |P|, x).value - |P|;
      UnlinkIsWithout(W, j);
      assert x == W[j] && x in W;
    }
  }

  /** One forward MoveNext on q[..k] + W, written out. */
  lemma {:induction false} ForwardMove(pinned: set<int>, viewQuery: seq<int>, q: seq<int>, k: nat, W: seq<int>)
    requires k < |q| && Distinct(W)
    ensures MoveNext(q[..k] + W, pinned, viewQuery, Forward(q, k)) ==
      Moved(q[..k + 1] + Without(W, [q[k]]), Forward(q, k + 1), if q[k] in W then [] else [Realize(q[k])], true)
  {
    PlaceStep(q, k, W);
  }

  /**
   * The bookkeeping of one forward step: with q[k] taken out of W, the ids the tail phase will see
   * are the same, and the realize calls still due are those of q[k + 1..].
   */
  lemma {:induction false} ForwardAccounts(q: seq<int>, k: nat, W: seq<int>)
    requires k < |q| && Distinct(q)
    ensures var W2 := Without(W, [q[k]]);
      && Without(W2, q[k + 1..]) == Without(W, q[k..])
      && Realizations(q[k..], W) == (if q[k] in W then [] else [Realize(q[k])]) + Realizations(q[k + 1..], W2)
  {
    var x := q[k];
    var W2 := Without(W, [x]);
    assert q[k..] == [x] + q[k + 1..];
    WithoutTwice(W, x, q[k + 1..]);
    WithoutMembers(W, [x]);
    var later := q[k + 1..];
    forall i | 0 <= i < |later| ensures later[i] in W <==> later[i] in W2 {
      assert later[i] == q[k + 1 + i] != x;
    }
    RealizationsCongruent(later, W, W2);
    assert q[k..][1..] == q[k + 1..];
  }

  /** The forward phase at the end of the query moves straight into the tail phase. */
  lemma {:induction false} ForwardEnd(pinned: set<int>, viewQuery: seq<int>, q: seq<int>, W: seq<int>)
    ensures Walked(q + W, pinned, viewQuery, Forward(q, |q|)) ==
      Outcome(q + Survivors(W, pinned), Evictions(W, pinned), |W|)
  {
    var s := q + W;
    assert MoveNext(s, pinned, viewQuery, Forward(q, |q|)) == MoveNext(s, pinned, viewQuery, Backward(|q|, |q| + |W|));
    assert Walked(s, pinned, viewQuery, Forward(q, |q|)) == Walked(s, pinned, viewQuery, Backward(|q|, |q| + |W|));
    RunTail(pinned, viewQuery, q, W, []);
    assert s + [] == s && q + Survivors(W, pinned) + [] == q + Survivors(W, pinned);
  }

  /**
   * What the walk does from Forward(q, k) on q[..k] + W, step by step: each query id costs one
   * yield and a RealizeItem call when it is not among the remaining ids, and the tail phase then
   * works on what is left.
   */
  function ForwardOutcome(pinned: set<int>, q: seq<int>, k: nat, W: seq<int>): Outcome
    requires k <= |q|
    decreases |q| - k
  {
    if k == |q| then Outcome(q + Survivors(W, pinned), Evictions(W, pinned), |W|)
    else
      var o := ForwardOutcome(pinned, q, k + 1, Without(W, [q[k]]));
      Outcome(o.realized, (if q[k] in W then [] else [Realize(q[k])]) + o.actions, o.moves + 1)
  }

  /** The forward phase runs as ForwardOutcome says. */
  lemma {:induction false} RunForward(pinned: set<int>, viewQuery: seq<int>, q: seq<int>, k: nat, W: seq<int>)
    requires k <= |q| && Distinct(W)
    ensures Walked(q[..k] + W, pinned, viewQuery, Forward(q, k)) == ForwardOutcome(pinned, q, k, W)
    decreases |q| - k
  {
    if k == |q| {
      assert q[..k] == q;
      ForwardEnd(pinned, viewQuery, q, W);
    } else {
      var W2 := Without(W, [q[k]]);
      WithoutDistinct(W, [q[k]]);
      RunForward(pinned, viewQuery, q, k + 1, W2);
      ForwardMove(pinned, viewQuery, q, k, W);
      WalkedAfterMove(q[..k] + W, pinned, viewQuery, Forward(q, k),
        Moved(q[..k + 1] + W2, Forward(q, k + 1), if q[k] in W then [] else [Realize(q[k])], true),
        ForwardOutcome(pinned, q, k + 1, W2));
    }
  }

  /**
   * ForwardOutcome in closed form: the query followed by the protected ids of W outside it; the
   * realize calls for the query ids not in W, then the release calls for the unprotected ids of W
   * outside the query; one yield per query id and per id of W outside it.
   */
  lemma {:induction false} ForwardOutcomeClosed(pinned: set<int>, q: seq<int>, k: nat, W: seq<int>)
    requires k <= |q| && Distinct(q)
    ensures var rest := Without(W, q[k..]);
      ForwardOutcome(pinned, q, k, W) ==
        Outcome(q + Survivors(rest, pinned), Realizations(q[k..], W) + Evictions(rest, pinned), |q| - k + |rest|)
    decreases |q| - k
  {
    if k == |q| {
      assert q[k..] == [];
      WithoutNone(W, []);
    } else {
      var W2 := Without(W, [q[k]]);
      var rest := Without(W, q[k..]);
      ForwardAccounts(q, k, W);
      ForwardOutcomeClosed(pinned, q, k + 1, W2);
      var a := if q[k] in W then [] else [Realize(q[k])];
      ForwardFirst(pinned, q, k, W);
      OutcomeCons(ForwardOutcome(pinned, q, k, W), ForwardOutcome(pinned, q, k + 1, W2), a,
        Realizations(q[k + 1..], W2), Realizations(q[k..], W), q + Survivors(rest, pinned), Evictions(rest, pinned), |q| - k - 1 + |rest|);
    }
  }

  /** ForwardOutcome at k < |q|, unfolded once. */
  lemma {:induction false} ForwardFirst(pinned: set<int>, q: seq<int>, k: nat, W: seq<int>)
    requires k < |q|
    ensures var o := ForwardOutcome(pinned, q, k + 1, Without(W, [q[k]]));
      ForwardOutcome(pinned, q, k, W) == Outcome(o.realized, (if q[k] in W then [] else [Realize(q[k])]) + o.actions, o.moves + 1)
  {
  }

  /** One more yield, with its calls put in front of the calls of the rest. */
  lemma OutcomeCons(o: Outcome, o1: Outcome, a: seq<Action>, r1: seq<Action>, r: seq<Action>, realized: seq<int>, e: seq<Action>, m: nat)
    requires o == Outcome(o1.realized, a + o1.actions, o1.moves + 1)
    requires o1 == Outcome(realized, r1 + e, m) && r == a + r1
    ensures o == Outcome(realized, r + e, m + 1)
  {
    assert a + (r1 + e) == (a + r1) + e;
  }

  /**
   * What one whole walk does. On a realized list and a query without repeats, the list afterwards
   * is the query, in order, followed by the previously realized ids outside the query whose
   * containers hold capture or focus. RealizeItem was called once for each query id not realized
   * before, in query order; VirtualizeItem once for each other id outside the query, from the end
   * of the list backwards. The walk yields once per query id and once per visited tail node.
   */
  lemma {:induction false} WalkResult(s: seq<int>, pinned: set<int>, q: seq<int>)
    requires Distinct(s) && Distinct(q)
    ensures var rest := Without(s, q);
      Run(Enumerator(pinned, q), q, s, Start) ==
        Outcome(q + Survivors(rest, pinned), Realizations(q, s) + Evictions(rest, pinned), |q| + |rest|)
  {
    assert q[..0] + s == s && q[0..] == q;
    RunForward(pinned, q, q, 0, s);
    ForwardOutcomeClosed(pinned, q, 0, s);
    assert MoveNext(s, pinned, q, Start) == MoveNext(s, pinned, q, Forward(q, 0));
    assert Walked(s, pinned, q, Start) == Walked(s, pinned, q, Forward(q, 0));
    RunIsWalked(pinned, q, s, Start);
  }

  /** The ids kept behind the query are outside it, protected, and without repeats. */
  lemma {:induction false} KeptTail(s: seq<int>, pinned: set<int>, q: seq<int>)
    requires Distinct(s)
    ensures var tail := Survivors(Without(s, q), pinned);
      Distinct(tail) && forall i :: 0 <= i < |tail| ==> tail[i] !in q && tail[i] in pinned
  {
    var rest := Without(s, q);
    var tail := Survivors(rest, pinned);
    WithoutDistinct(s, q);
    SurvivorsDistinct(rest, pinned);
    WithoutMembers(s, q);
    SurvivorsMembers(rest, pinned);
    forall i | 0 <= i < |tail| ensures tail[i] !in q && tail[i] in pinned {
      assert tail[i] in tail;
    }
  }

  /** The list begins with the query, and every node behind it holds a protected container. */
  predicate Settled(r: seq<int>, q: seq<int>, pinned: set<int>)
  {
    |q| <= |r| && r[..|q|] == q && forall i :: |q| <= i < |r| ==> r[i] in pinned
  }

  /**
   * From Forward(q, k) on q[..k] + W, for any list and query, repeats included: the walk leaves a
   * settled list and yields at least once per query id still to place and at most once more per
   * node of W.
   */
  lemma {:induction false} WalkFromPrefix(pinned: set<int>, viewQuery: seq<int>, q: seq<int>, k: nat, W: seq<int>)
    requires k <= |q|
    ensures var o := Walked(q[..k] + W, pinned, viewQuery, Forward(q, k));
      Settled(o.realized, q, pinned) && |q| - k <= o.moves <= |q| - k + |W|
    decreases |q| - k
  {
    if k == |q| {
      assert q[..k] == q;
      ForwardEnd(pinned, viewQuery, q, W);
      var r := q + Survivors(W, pinned);
      SurvivorsMembers(W, pinned);
      assert r[..|q|] == q;
      forall i | |q| <= i < |r| ensures r[i] in pinned {
        assert r[i] == Survivors(W, pinned)[i - |q|];
      }
    } else {
      var W2 := ForwardKeepsPrefix(pinned, viewQuery, q, k, W);
      var m := MoveNext(q[..k] + W, pinned, viewQuery, Forward(q, k));
      WalkFromPrefix(pinned, viewQuery, q, k + 1, W2);
      WalkedAfterMove(q[..k] + W, pinned, viewQuery, Forward(q, k), m, Walked(m.realized, pinned, viewQuery, m.walk));
    }
  }

  /** One forward move on q[..k] + W, repeats allowed: q[..k + 1] then what is left of W. */
  lemma {:induction false} ForwardKeepsPrefix(pinned: set<int>, viewQuery: seq<int>, q: seq<int>, k: nat, W: seq<int>)
    returns (W2: seq<int>)
    requires k < |q|
    ensures |W2| <= |W|
    ensures var m := MoveNext(q[..k] + W, pinned, viewQuery, Forward(q, k));
      m.realized == q[..k + 1] + W2 && m.walk == Forward(q, k + 1) && m.more
  {
    var x := q[k];
    var P := q[..k];
    assert q[..k + 1] == P + [x];
    if FindNext(P + W, |P|, x).None? {
      PlaceNew(P, W, x);
      W2 := W;
    } else {
      PlaceRelink(P, W, x);
      var j := FindNext(P + W, |P|, x).value - |P|;
      W2 := W[..j] + W[j + 1..];
    }
  }

  /**
   * After a walk, for any list and query, the list begins with exactly the query and every node
   * behind it holds a protected container; on a list and a query without repeats it has none.
   */
  lemma {:induction false} WalkPrefix(s: seq<int>, pinned: set<int>, q: seq<int>)
    ensures Settled(Run(Enumerator(pinned, q), q, s, Start).realized, q, pinned)
    ensures Distinct(s) && Distinct(q) ==> Distinct(Run(Enumerator(pinned, q), q, s, Start).realized)
  {
    WalkStart(s, pinned, q);
    if Distinct(s) && Distinct(q) {
      WalkResult(s, pinned, q);
      var tail := Survivors(Without(s, q), pinned);
      KeptTail(s, pinned, q);
      var r := q + tail;
      forall i, j | 0 <= i < j < |r| ensures r[i] != r[j] {
        if j >= |q| && i < |q| {
          assert r[j] == tail[j - |q|] && r[i] == q[i];
        } else if i >= |q| {
          assert r[i] == tail[i - |q|] && r[j] == tail[j - |q|];
        }
      }
    }
  }

  /** A new walk is the forward phase from its first query id, on any list and query. */
  lemma {:induction false} WalkStart(s: seq<int>, pinned: set<int>, q: seq<int>)
    ensures var o := Run(Enumerator(pinned, q), q, s, Start);
      Settled(o.realized, q, pinned) && |q| <= o.moves <= |q| + |s|
  {
    assert q[..0] + s == s;
    WalkFromPrefix(pinned, q, q, 0, s);
    assert MoveNext(s, pinned, q, Start) == MoveNext(s, pinned, q, Forward(q, 0));
    assert Walked(s, pinned, q, Start) == Walked(s, pinned, q, Forward(q, 0));
    RunIsWalked(pinned, q, s, Start);
  }

  /** From Forward(q, k) on a settled list, every placement finds its id at the cursor and the tail keeps every node. */
  lemma {:induction false} QuietForward(pinned: set<int>, viewQuery: seq<int>, q: seq<int>, k: nat, r: seq<int>)
    requires k <= |q| && Settled(r, q, pinned)
    ensures var o := Walked(r, pinned, viewQuery, Forward(q, k)); o.realized == r && o.actions == []
    decreases |q| - k
  {
    var T := r[|q|..];
    assert r == q + T;
    if k == |q| {
      ForwardEnd(pinned, viewQuery, q, T);
      forall i | 0 <= i < |T| ensures T[i] in pinned {
        assert T[i] == r[|q| + i];
      }
      SurvivorsAllPinned(T, pinned);
    } else {
      assert r[k] == q[k];
      assert FindNext(r, k, q[k]) == Some(k);
      var m := MoveNext(r, pinned, viewQuery, Forward(q, k));
      assert m == Moved(r, Forward(q, k + 1), [], true);
      QuietForward(pinned, viewQuery, q, k + 1, r);
      WalkedAfterMove(r, pinned, viewQuery, Forward(q, k), m, Walked(r, pinned, viewQuery, Forward(q, k + 1)));
    }
  }

  /** A walk over a settled list makes no call and leaves the list as it is. */
  lemma {:induction false} SettledIsQuiet(r: seq<int>, pinned: set<int>, q: seq<int>)
    requires Settled(r, q, pinned)
    ensures var o := Run(Enumerator(pinned, q), q, r, Start); o.realized == r && o.actions == []
  {
    QuietForward(pinned, q, q, 0, r);
    assert MoveNext(r, pinned, q, Start) == MoveNext(r, pinned, q, Forward(q, 0));
    assert Walked(r, pinned, q, Start) == Walked(r, pinned, q, Forward(q, 0));
    RunIsWalked(pinned, q, r, Start);
  }

  /**
   * Idempotence, for any list and query: walking a second time with the same query and the same
   * protected containers makes no RealizeItem or VirtualizeItem call and leaves the list as it is.
   */
  lemma {:induction false} SecondWalkIsQuiet(s: seq<int>, pinned: set<int>, q: seq<int>)
    ensures var e := Enumerator(pinned, q); var r := Run(e, q, s, Start).realized;
      Run(e, q, r, Start).actions == [] && Run(e, q, r, Start).realized == r
  {
    WalkStart(s, pinned, q);
    SettledIsQuiet(Run(Enumerator(pinned, q), q, s, Start).realized, pinned, q);
  }

  // ---------------------------------------------------------------------------------------------
  // Renumbering the realized ids when the items collection changes.

  /** OnItemsAdded on one id: ids at or above the insertion index move up by count. */
  function ShiftUp(id: int, index: int, count: nat): int
  {
    if id >= index then id + count else id
  }

  /** OnItemsAdded on the realized list. */
  function ShiftAdded(s: seq<int>, index: int, count: nat): (r: seq<int>)
    ensures |r| == |s|
    ensures forall i :: 0 <= i < |s| ==> r[i] == ShiftUp(s[i], index, count)
  {
    if s == [] then [] else [ShiftUp(s[0], index, count)] + ShiftAdded(s[1..], index, count)
  }

  /** Renumbering on insertion never merges two realized ids. */
  lemma {:induction false} ShiftAddedDistinct(s: seq<int>, index: int, count: nat)
    requires Distinct(s)
    ensures Distinct(ShiftAdded(s, index, count))
  {
    var r := ShiftAdded(s, index, count);
    forall i, j | 0 <= i < j < |r| ensures r[i] != r[j] {
      assert r[i] == ShiftUp(s[i], index, count) && r[j] == ShiftUp(s[j], index, count);
    }
  }

  /**
   * OnItemsRemoved on the realized list: ids in [index, index + count) are unlinked, ids above move
   * down by count, the others stay.
   */
  function ShiftRemoved(s: seq<int>, index: int, count: nat): (r: seq<int>)
    ensures |r| <= |s|
  {
    if s == [] then []
    else
      var head :=
        if s[0] < index then [s[0]]
        else if s[0] < index + count then []
        else [s[0] - count];
      head + ShiftRemoved(s[1..], index, count)
  }

  /** Removing nothing, or only ids above every realized one, leaves the list as it was. */
  lemma {:induction false} ShiftRemovedUnaffected(s: seq<int>, index: int, count: nat)
    ensures count == 0 || (forall k :: 0 <= k < |s| ==> s[k] < index) ==> ShiftRemoved(s, index, count) == s
  {
    if s != [] {
      ShiftRemovedUnaffected(s[1..], index, count);
      assert s == [s[0]] + s[1..];
    }
  }

  /** After removal an id y is realized exactly when it was below the range, or y + count was above it. */
  lemma {:induction false} ShiftRemovedMember(s: seq<int>, index: int, count: nat, y: int)
    ensures y in ShiftRemoved(s, index, count) <==>
      (y < index && y in s) || (y >= index && y + count in s)
  {
    if s != [] {
      ShiftRemovedMember(s[1..], index, count, y);
      assert s == [s[0]] + s[1..];
    }
  }

  /** The order of the list survives renumbering: both maps work node by node. */
  lemma {:induction false} ShiftRemovedAppend(a: seq<int>, b: seq<int>, index: int, count: nat)
    ensures ShiftRemoved(a + b, index, count) == ShiftRemoved(a, index, count) + ShiftRemoved(b, index, count)
  {
    if a == [] {
      assert a + b == b;
    } else {
      assert (a + b)[1..] == a[1..] + b;
      ShiftRemovedAppend(a[1..], b, index, count);
    }
  }

  /** Adding count items at index and then removing the same range gives back the realized list. */
  lemma {:induction false} ShiftRoundTrip(s: seq<int>, index: int, count: nat)
    ensures ShiftRemoved(ShiftAdded(s, index, count), index, count) == s
  {
    if s != [] {
      ShiftRoundTrip(s[1..], index, count);
      assert ShiftAdded(s, index, count) == [ShiftUp(s[0], index, count)] + ShiftAdded(s[1..], index, count);
    }
  }

  /** Removal keeps every realized id a valid item index of the shrunken collection. */
  lemma {:induction false} ShiftRemovedInRange(s: seq<int>, index: int, count: nat, n: nat)
    requires 0 <= index && index + count <= n
    requires forall y :: y in s ==> 0 <= y < n
    ensures forall y :: y in ShiftRemoved(s, index, count) ==> 0 <= y < n - count
  {
    forall y | y in ShiftRemoved(s, index, count) ensures 0 <= y < n - count {
      ShiftRemovedMember(s, index, count, y);
      if y >= index {
        assert y + count in s;
      } else {
        assert y in s;
      }
    }
  }

  /** Renumbering keeps a list without repeats without repeats. */
  lemma {:induction false} ShiftRemovedDistinct(s: seq<int>, index: int, count: nat)
    requires Distinct(s)
    ensures Distinct(ShiftRemoved(s, index, count))
  {
    if s != [] {
      ShiftRemovedDistinct(s[1..], index, count);
      var r := ShiftRemoved(s, index, count);
      var tail := ShiftRemoved(s[1..], index, count);
      assert s[0] !in s[1..];
      assert r == (if s[0] < index then [s[0]] else if s[0] < index + count then [] else [s[0] - count]) + tail;
      if s[0] < index {
        assert s[0] !in tail by {
          ShiftRemovedMember(s[1..], index, count, s[0]);
        }
      } else if s[0] >= index + count {
        assert s[0] - count !in tail by {
          ShiftRemovedMember(s[1..], index, count, s[0] - count);
        }
      }
    }
  }
}
