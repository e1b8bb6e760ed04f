/**
 The start-up and finish handshake of ctest/src/helpers_threading.c: a parent
 starts N children, calls each with its arguments, waits for N messages, and
 deletes the threads. Messages are synchronous: a send completes when the
 destination receives; a call receives only from the thread it called, a wait
 from anyone. The children's entry points exchange no messages.
 */
module Handshake {
  import opened Optional

  datatype Message = Args(id: nat) | Ready(id: nat) | Finish(id: nat)

  /** A child: not created, waiting for its arguments, sending, running its entry point, waiting to be killed. */
  datatype ChildPc = Absent | Listening | Sending(m: Message) | Working(left: nat) | Parked | Deleted

  datatype Child = Child(pc: ChildPc, first: Option<Message>)

  /** The parent's four loops; `Replying` is the receive half of a call. */
  datatype ParentPc = Creating(i: nat) | Calling(i: nat) | Replying(i: nat) | Waiting(i: nat) | Deleting(i: nat) | Done

  /** `heard` is what the wait loop has consumed; `work` is how long each entry point runs. */
  datatype State = State(parent: ParentPc, children: seq<Child>, heard: seq<Message>, work: seq<nat>)

  datatype Action = Loop | Tell | Deliver(from: nat) | Work(who: nat)

  /** Would the parent accept a message from child `j` now? */
  predicate Accepts(p: ParentPc, n: nat, j: nat) {
    match p
    case Replying(i) => i == j
    case Waiting(i) => i < n
    case _ => false
  }

  predicate Enabled(s: State, a: Action) {
    var n := |s.children|;
    |s.work| == n &&
    match a
    case Loop =>
      (match s.parent
       case Creating(i) => true
       case Deleting(i) => true
       case Calling(i) => i >= n
       case Waiting(i) => i >= n
       case _ => false)
    case Tell => s.parent.Calling? && s.parent.i < n && s.children[s.parent.i].pc.Listening?
    case Deliver(j) => j < n && s.children[j].pc.Sending? && Accepts(s.parent, n, j)
    case Work(j) => j < n && s.children[j].pc.Working?
  }

  function SetPc(s: State, j: nat, pc: ChildPc): State
    requires j < |s.children|
  {
    s.(children := s.children[j := s.children[j].(pc := pc)])
  }

  /** The parent's own steps: create or delete the next thread, or leave a loop that has run N times. */
  function LoopStep(s: State): State
    requires Enabled(s, Loop)
  {
    var n := |s.children|;
    match s.parent
    case Creating(i) =>
      if i < n then SetPc(s, i, Listening).(parent := Creating(i + 1)) else s.(parent := Calling(0))
    case Calling(i) => s.(parent := Waiting(0))
    case Waiting(i) => s.(parent := Deleting(0))
    case Deleting(i) =>
      if i < n then SetPc(s, i, Deleted).(parent := Deleting(i + 1)) else s.(parent := Done)
  }

  function Step(s: State, a: Action): State
    requires Enabled(s, a)
  {
    match a
    case Loop => LoopStep(s)
    case Tell =>
      // okl4_message_call delivers the arguments; the child answers whoever they name.
      var i := s.parent.i;
      s.(parent := Replying(i), children := s.children[i := Child(Sending(Ready(i)), Some(Args(i)))])
    case Deliver(j) =>
      var m := s.children[j].pc.m;
      var s' := SetPc(s, j, if m.Ready? then Working(s.work[j]) else Parked);
      (match s.parent
       case Replying(i) => s'.(parent := Calling(i + 1))
       case Waiting(i) => s'.(parent := Waiting(i + 1), heard := s.heard + [m]))
    case Work(j) =>
      var left := s.children[j].pc.left;
      SetPc(s, j, if left > 0 then Working(left - 1) else Sending(Finish(j)))
  }

  function Start(work: seq<nat>): State {
    State(Creating(0), seq(|work|, _ => Child(Absent, None)), [], work)
  }

  /** Runs a schedule; actions that are not possible are skipped. */
  function Run(s: State, sched: seq<Action>): State
    decreases |sched|
  {
    if sched == [] then s
    else if Enabled(s, sched[0]) then Run(Step(s, sched[0]), sched[1..])
    else Run(s, sched[1..])
  }

  // ---------------------------------------------------------------- invariant

  /** A child that has been told its arguments and has answered. */
  predicate Started(ch: Child, j: nat) {
    ch.first == Some(Args(j)) && (ch.pc.Working? || ch.pc == Sending(Finish(j)))
  }

  predicate ChildOk(p: ParentPc, ch: Child, j: nat) {
    match p
    case Creating(i) => ch == Child(if j < i then Listening else Absent, None)
    case Calling(i) => if j < i then Started(ch, j) else ch == Child(Listening, None)
    case Replying(i) =>
      if j < i then Started(ch, j)
      else if j == i then ch == Child(Sending(Ready(i)), Some(Args(i)))
      else ch == Child(Listening, None)
    case Waiting(_) => Started(ch, j) || ch == Child(Parked, Some(Args(j)))
    case Deleting(i) => ch == Child(if j < i then Deleted else Parked, Some(Args(j)))
    case Done => ch == Child(Deleted, Some(Args(j)))
  }

  ghost predicate ParentOk(s: State) {
    match s.parent
    case Creating(i) => i <= |s.children| && s.heard == []
    case Calling(i) => i <= |s.children| && s.heard == []
    case Replying(i) => i < |s.children| && s.heard == []
    case Waiting(i) => |s.heard| == i <= |s.children|
    case Deleting(i) => i <= |s.children| == |s.heard|
    case Done => |s.heard| == |s.children|
  }

  /** What the wait loop heard: finish messages, no child's twice, exactly from the children that are parked. */
  ghost predicate HeardOk(s: State) {
    && (forall k | 0 <= k < |s.heard| :: s.heard[k].Finish? && s.heard[k].id < |s.children|)
    && (forall k, l | 0 <= k < l < |s.heard| :: s.heard[k] != s.heard[l])
    && (forall j | 0 <= j < |s.children| ::
          Finish(j) in s.heard <==> s.children[j].pc.Parked? || s.children[j].pc.Deleted?)
  }

  ghost predicate Inv(s: State) {
    && |s.work| == |s.children| && ParentOk(s) && HeardOk(s)
    && forall j | 0 <= j < |s.children| :: ChildOk(s.parent, s.children[j], j)
  }

  /** N different messages from N children come from all of them. */
  lemma {:induction false} AllHeard(heard: seq<Message>, n: nat)
    requires |heard| == n
    requires forall k | 0 <= k < n :: heard[k].Finish? && heard[k].id < n
    requires forall k, l | 0 <= k < l < n :: heard[k] != heard[l]
    ensures forall j: nat | j < n :: Finish(j) in heard
  {
    var ids := set k | 0 <= k < n :: heard[k].id;
    var all := Upto(n);
    Distinct(heard, n);
    assert ids <= all;
    SubsetSize(ids, all);
    forall j: nat | j < n
      ensures Finish(j) in heard
    {
      assert j in ids;
      var k :| 0 <= k < n && heard[k].id == j;
      assert heard[k] == Finish(j);
    }
  }

  lemma {:induction false} Distinct(heard: seq<Message>, n: nat)
    requires n <= |heard| && forall k | 0 <= k < n :: heard[k].Finish?
    requires forall k, l | 0 <= k < l < n :: heard[k] != heard[l]
    ensures |set k | 0 <= k < n :: heard[k].id| == n
  {
    var ids := set k | 0 <= k < n :: heard[k].id;
    if n > 0 {
      Distinct(heard, n - 1);
      var before := set k | 0 <= k < n - 1 :: heard[k].id;
      assert ids == before + {heard[n - 1].id};
      assert heard[n - 1].id !in before;
    }
  }

  function Upto(n: nat): (r: set<nat>)
    ensures |r| == n && forall j: nat :: j in r <==> j < n
  {
    if n == 0 then {} else Upto(n - 1) + {n - 1}
  }

  lemma SubsetSize(x: set<nat>, y: set<nat>)
    requires x <= y
    ensures |x| <= |y| && (|x| == |y| ==> x == y)
  {
    assert y == x + (y - x);
  }

  lemma LoopKeepsInv(s: State)
    requires Inv(s) && Enabled(s, Loop)
    ensures Inv(LoopStep(s))
  {
    if s.parent.Waiting? {
      AllHeard(s.heard, |s.children|);
    }
    forall j | 0 <= j < |s.children|
      ensures ChildOk(s.parent, s.children[j], j)
    {}
  }

  lemma TellKeepsInv(s: State)
    requires Inv(s) && Enabled(s, Tell)
    ensures Inv(Step(s, Tell))
  {
    hide LoopStep;
    var s' := Step(s, Tell);
    forall j | 0 <= j < |s.children|
      ensures ChildOk(s'.parent, s'.children[j], j)
    {
      assert ChildOk(s.parent, s.children[j], j);
    }
  }

  lemma DeliverKeepsInv(s: State, j: nat)
    requires Inv(s) && Enabled(s, Deliver(j))
    ensures Inv(Step(s, Deliver(j)))
  {
    hide LoopStep;
    var s', m := Step(s, Deliver(j)), s.children[j].pc.m;
    assert ChildOk(s.parent, s.children[j], j);
    forall k | 0 <= k < |s.children|
      ensures ChildOk(s'.parent, s'.children[k], k)
    {
      assert ChildOk(s.parent, s.children[k], k);
    }
    if s.parent.Waiting? {
      forall k | 0 <= k < |s.children|
        ensures Finish(k) in s'.heard <==> s'.children[k].pc.Parked? || s'.children[k].pc.Deleted?
      {
        assert Finish(k) in s'.heard <==> Finish(k) in s.heard || k == j;
      }
    }
  }

  lemma WorkKeepsInv(s: State, j: nat)
    requires Inv(s) && Enabled(s, Work(j))
    ensures Inv(Step(s, Work(j)))
  {
    hide LoopStep;
    var s' := Step(s, Work(j));
    assert ChildOk(s.parent, s.children[j], j);
    forall k | 0 <= k < |s.children|
      ensures ChildOk(s'.parent, s'.children[k], k)
    {
      assert ChildOk(s.parent, s.children[k], k);
    }
  }

  lemma StepKeepsInv(s: State, a: Action)
    requires Inv(s) && Enabled(s, a)
    ensures Inv(Step(s, a))
  {
    hide Inv, LoopStep;
    match a
    case Loop => LoopKeepsInv(s);
    case Tell => TellKeepsInv(s);
    case Deliver(j) => DeliverKeepsInv(s, j);
    case Work(j) => WorkKeepsInv(s, j);
  }

  lemma {:induction false} RunKeepsInv(s: State, sched: seq<Action>)
    requires Inv(s)
    ensures Inv(Run(s, sched))
    decreases |sched|
  {
    hide Inv, Step, Enabled;
    if sched != [] {
      if Enabled(s, sched[0]) {
        StepKeepsInv(s, sched[0]);
        RunKeepsInv(Step(s, sched[0]), sched[1..]);
      } else {
        RunKeepsInv(s, sched[1..]);
      }
    }
  }

  /**
   Every interleaving, for any number of children: a child's first message is
   its own arguments, the wait loop consumes only finish messages and no
   child's twice, and a child is deleted only after its finish was consumed.
   */
  lemma EveryRunIsOrderly(work: seq<nat>, sched: seq<Action>)
    ensures var s := Run(Start(work), sched);
      && (forall j | 0 <= j < |s.children| && s.children[j].first.Some? :: s.children[j].first == Some(Args(j)))
      && (forall k | 0 <= k < |s.heard| :: s.heard[k].Finish?)
      && (forall k, l | 0 <= k < l < |s.heard| :: s.heard[k].id != s.heard[l].id)
      && (forall j | 0 <= j < |s.children| && s.children[j].pc.Deleted? :: Finish(j) in s.heard)
      && (s.parent.Done? ==> forall j | 0 <= j < |s.children| :: s.children[j].pc.Deleted?)
  {
    RunKeepsInv(Start(work), sched);
    var s := Run(Start(work), sched);
    forall j | 0 <= j < |s.children|
      ensures ChildOk(s.parent, s.children[j], j)
    {}
  }

  /** While the parent is not done, some action is possible. */
  lemma NeverStuck(s: State) returns (a: Action)
    requires Inv(s) && !s.parent.Done?
    ensures Enabled(s, a)
  {
    var n := |s.children|;
    match s.parent
    case Creating(i) => a := Loop;
    case Deleting(i) => a := Loop;
    case Calling(i) =>
      a := if i < n then Tell else Loop;
      assert i < n ==> ChildOk(s.parent, s.children[i], i);
    case Replying(i) =>
      a := Deliver(i);
      assert ChildOk(s.parent, s.children[i], i);
    case Waiting(i) =>
      if i >= n {
        a := Loop;
      } else {
        var j := SomeoneUnheard(s.heard, n);
        assert ChildOk(s.parent, s.children[j], j);
        a := if s.children[j].pc.Working? then Work(j) else Deliver(j);
      }
  }

  /** So no run of the test is stuck before the parent is done. */
  lemma NoRunIsStuck(work: seq<nat>, sched: seq<Action>)
    requires !Run(Start(work), sched).parent.Done?
    ensures exists a :: Enabled(Run(Start(work), sched), a)
  {
    hide Run, Enabled;
    RunKeepsInv(Start(work), sched);
    var a := NeverStuck(Run(Start(work), sched));
  }

  // ---------------------------------------------------------------- every run is finite

  /** Steps the parent has left. */
  function ParentLeft(p: ParentPc, n: nat): int {
    match p
    case Creating(i) => n - i + 1 + (4 * n + 3)
    case Calling(i) => 2 * (n - i) + 1 + (2 * n + 2)
    case Replying(i) => 2 * (n - i) + (2 * n + 2)
    case Waiting(i) => n - i + 1 + (n + 1)
    case Deleting(i) => n - i + 1
    case Done => 0
  }

  /** Steps a child has left in its entry point. */
  function ChildLeft(pc: ChildPc, work: nat): nat {
    match pc
    case Absent => work + 1
    case Listening => work + 1
    case Sending(m) => if m.Ready? then work + 1 else 0
    case Working(left) => left + 1
    case _ => 0
  }

  function ChildrenLeft(children: seq<Child>, work: seq<nat>): nat
    requires |children| == |work|
  {
    if children == [] then 0
    else
      var n := |children| - 1;
      ChildrenLeft(children[..n], work[..n]) + ChildLeft(children[n].pc, work[n])
  }

  function Rank(s: State): int
    requires |s.children| == |s.work|
  {
    ParentLeft(s.parent, |s.children|) + ChildrenLeft(s.children, s.work)
  }

  lemma {:induction false} ChildrenLeftAfter(children: seq<Child>, work: seq<nat>, j: nat, ch: Child)
    requires |children| == |work| && j < |children|
    ensures ChildrenLeft(children[j := ch], work) ==
      ChildrenLeft(children, work) - ChildLeft(children[j].pc, work[j]) + ChildLeft(ch.pc, work[j])
  {
    var n := |children| - 1;
    if j == n {
      assert children[j := ch][..n] == children[..n];
    } else {
      assert children[j := ch][..n] == children[..n][j := ch];
      ChildrenLeftAfter(children[..n], work[..n], j, ch);
    }
  }

  /** Every step, of parent or child, is one of a number fixed at the start. */
  lemma StepCounts(s: State, a: Action)
    requires Inv(s) && Enabled(s, a)
    ensures |Step(s, a).children| == |Step(s, a).work| && Rank(Step(s, a)) == Rank(s) - 1 && Rank(s) > 0
  {
    hide ChildrenLeft, HeardOk;
    var s' := Step(s, a);
    match a
    case Loop =>
      if (s.parent.Creating? || s.parent.Deleting?) && s.parent.i < |s.children| {
        ChildCounts(s, s', s.parent.i, 0);
      }
    case Tell => ChildCounts(s, s', s.parent.i, 0);
    case Deliver(j) => ChildCounts(s, s', j, 0);
    case Work(j) => ChildCounts(s, s', j, 1);
  }

  /** A step changes the work of one child at most, by what it works. */
  lemma ChildCounts(s: State, s': State, j: nat, worked: nat)
    requires |s.children| == |s.work| && j < |s.children| && |s'.children| == |s.children| && s'.work == s.work
    requires s'.children == s.children[j := s'.children[j]]
    requires ChildLeft(s'.children[j].pc, s.work[j]) == ChildLeft(s.children[j].pc, s.work[j]) - worked
    ensures ChildrenLeft(s'.children, s'.work) == ChildrenLeft(s.children, s.work) - worked
    ensures worked <= ChildrenLeft(s.children, s.work)
  {
    hide ChildLeft;
    ChildrenLeftAfter(s.children, s.work, j, s'.children[j]);
    ChildBelow(s.children, s.work, j);
  }

  lemma {:induction false} ChildBelow(children: seq<Child>, work: seq<nat>, j: nat)
    requires |children| == |work| && j < |children|
    ensures ChildLeft(children[j].pc, work[j]) <= ChildrenLeft(children, work)
  {
    var n := |children| - 1;
    if j < n { ChildBelow(children[..n], work[..n], j); }
  }

  /** Every entry of the schedule is possible when its turn comes. */
  ghost predicate Moving(s: State, sched: seq<Action>)
    decreases |sched|
  {
    sched == [] || (Enabled(s, sched[0]) && Moving(Step(s, sched[0]), sched[1..]))
  }

  lemma {:induction false} MovingCounts(s: State, sched: seq<Action>)
    requires Inv(s) && Moving(s, sched)
    ensures Inv(Run(s, sched)) && Rank(Run(s, sched)) == Rank(s) - |sched| && 0 <= Rank(Run(s, sched))
    decreases |sched|
  {
    hide Inv, Enabled, Step, Rank;
    InvIsSized(s);
    if sched == [] {
      RankNatural(s);
    } else {
      StepCounts(s, sched[0]);
      StepKeepsInv(s, sched[0]);
      MovingCounts(Step(s, sched[0]), sched[1..]);
    }
  }

  lemma InvIsSized(s: State)
    requires Inv(s)
    ensures |s.children| == |s.work|
  {}

  lemma RankNatural(s: State)
    requires Inv(s)
    ensures 0 <= Rank(s)
  {}

  /** No interleaving goes on for ever, and one that cannot go on has done the whole test, in a number of
      steps that depends only on the children's work. */
  lemma EveryRunEnds(work: seq<nat>, sched: seq<Action>)
    requires Moving(Start(work), sched)
    ensures |sched| <= Rank(Start(work))
    ensures (forall a :: !Enabled(Run(Start(work), sched), a)) ==>
      Run(Start(work), sched).parent.Done? && |sched| == Rank(Start(work))
  {
    hide Inv, Enabled, Step, Run, Moving, Rank;
    StartInv(work);
    MovingCounts(Start(work), sched);
    var s := Run(Start(work), sched);
    if forall a :: !Enabled(s, a) {
      if !s.parent.Done? {
        var a := NeverStuck(s);
        assert false;
      }
      DoneIsZero(s);
    }
  }

  lemma StartInv(work: seq<nat>)
    ensures Inv(Start(work)) && |Start(work).children| == |Start(work).work|
  {}

  lemma DoneIsZero(s: State)
    requires Inv(s) && s.parent.Done?
    ensures Rank(s) == 0
  {
    AllDeleted(s.children, s.work);
  }

  lemma {:induction false} AllDeleted(children: seq<Child>, work: seq<nat>)
    requires |children| == |work| && forall j | 0 <= j < |children| :: children[j].pc.Deleted?
    ensures ChildrenLeft(children, work) == 0
  {
    if children != [] { AllDeleted(children[..|children| - 1], work[..|children| - 1]); }
  }

  lemma {:induction false} SomeoneUnheard(heard: seq<Message>, n: nat) returns (j: nat)
    requires |heard| < n
    ensures j < n && Finish(j) !in heard
  {
    var ids := set m | m in heard :: m.id;
    var all := Upto(n);
    FewIds(heard);
    assert !(all <= ids) by {
      if all <= ids {
        SubsetSize(all, ids);
        assert false;
      }
    }
    j :| j in all && j !in ids;
    assert Finish(j) in heard ==> Finish(j).id in ids;
  }

  lemma {:induction false} FewIds(heard: seq<Message>)
    ensures |set m | m in heard :: m.id| <= |heard|
  {
    var ids := set m | m in heard :: m.id;
    if heard != [] {
      var n := |heard| - 1;
      FewIds(heard[..n]);
      assert ids == (set m | m in heard[..n] :: m.id) + {heard[n].id};
    }
  }
}
