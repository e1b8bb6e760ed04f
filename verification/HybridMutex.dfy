/**
 The hybrid mutex of the Micro kernel and the mutex tests that run on it.

 A lock is one user word taken by compare-and-set; only a contended lock goes
 into the kernel, which keeps its own holder and queue under a spinlock
 (libs/okl4/src/micro/mutex_*.c, pistachio/src/mutex.cc). Every access to the
 words that user code shares (the lock word, its count, the memory it guards) is
 a step of its own, and threads interleave in any way. What the kernel does with
 its own data under the spinlock goes with the one such access next to it; a
 failed grab of the thread to wake changes nothing and starts over, so it is no
 step at all.
 */
module HybridMutex {
  import opened Optional

  type Tid = nat

  // ---------------------------------------------------------------- the user word

  const TOP: int := 0x8000_0000
  const FREE: int := 0xFFFF_FFFF
  const WORDS: int := 0x1_0000_0000

  /** The word of a lock held by `t`: the top bit is clear when the lock is contended. */
  function Held(t: Tid, contended: bool): int {
    if contended then t else TOP + t
  }

  predicate IsContended(w: int) {
    w < TOP
  }

  /** The thread index in a word that is not FREE. */
  function HolderOf(w: int): int {
    if w < TOP then w else w - TOP
  }

  /** `mutex_is_held_by_self`: compare the word, top bit forced on, with our handle. */
  predicate HeldBySelf(w: int, t: Tid) {
    TOP + HolderOf(w) == TOP + t
  }

  // ---------------------------------------------------------------- programs

  /** What a program makes of a try-lock's answer: it asserts one of the two, or skips the next `n` instructions
      when it is refused. */
  datatype Reply = AssertTaken | AssertRefused | OrSkip(n: nat)

  datatype Instr = Lock | TryLock(reply: Reply) | Inc | Dec | Unlock

  function DepthChange(i: Instr): int {
    match i
    case Lock => 1
    case TryLock(reply) => if reply.AssertRefused? then 0 else 1
    case Unlock => -1
    case _ => 0
  }

  function NetChange(i: Instr): int {
    match i case Inc => 1 case Dec => -1 case _ => 0
  }

  /** Nesting depth and net increments after the first `k` instructions. */
  function Depth(p: seq<Instr>, k: nat): int
    requires k <= |p|
  {
    if k == 0 then 0
    else Depth(p, k - 1) + DepthChange(p[k - 1])
  }

  function Net(p: seq<Instr>, k: nat): int
    requires k <= |p|
  {
    if k == 0 then 0 else Net(p, k - 1) + NetChange(p[k - 1])
  }

  /**
   Shared memory is touched under the lock and put back before the lock is
   free, and only a counted mutex is locked again while held. A try-lock whose
   success is asserted is made while a counted mutex is held, one whose failure
   is asserted while an uncounted one is; any other skips, when refused, to a
   place of the same depth.
   */
  predicate Disciplined(p: seq<Instr>, counted: bool) {
    && Depth(p, |p|) == 0
    && forall k | 0 <= k <= |p| ::
      && 0 <= Depth(p, k) <= WORDS
      && (Depth(p, k) == 0 ==> Net(p, k) == 0)
      && (k < |p| && p[k].Lock? ==> counted || Depth(p, k) == 0)
      && (k < |p| && p[k].TryLock? ==> TryFits(p, k, counted))
      && (k < |p| && (p[k].Inc? || p[k].Dec? || p[k].Unlock?) ==> Depth(p, k) > 0)
  }

  predicate TryFits(p: seq<Instr>, k: nat, counted: bool)
    requires k < |p| && p[k].TryLock?
  {
    var reply := p[k].reply;
    if reply.AssertTaken? then counted && Depth(p, k) > 0
    else if reply.AssertRefused? then !counted && Depth(p, k) > 0
    else
      (counted || Depth(p, k) == 0) && k + 1 + reply.n <= |p| && Depth(p, k + 1 + reply.n) == Depth(p, k)
  }

  // ---------------------------------------------------------------- states

  /** Where a thread is inside the operation at its instruction pointer. */
  datatype Pc =
    | Idle
    | Loaded(v: int)         // between the load and the store of ++ or --
    | CountRead              // held by us; about to load the count for count++
    | CountUp(v: int)        // between the load and the store of count++
    | UnlockRead             // held by us; about to test the count
    | CountDownRead          // about to load the count for count--
    | CountDown(v: int)      // between the load and the store of count--
    | LockCheck              // about to read the word again for the assertion
    | Grab | TryGrab         // about to compare-and-set FREE to our handle
    | AskLock                // entering the kernel to lock
    | KernelGrab             // spinlock held; about to try once more
    | KernelRead             // spinlock held; about to read the word
    | KernelMark(seen: int)  // spinlock held; about to set the contended bit
    | KernelQueue            // spinlock held; about to read the holder, record it and block
    | KernelAdopt            // spinlock held; the holder is dead, about to take its place
    | Blocked
    | Waking(uncontended: bool)
    | Release                // about to compare-and-set our handle to FREE
    | AskUnlock              // entering the kernel to unlock
    | KernelFree             // spinlock held; about to free the word

  datatype Thread = Thread(ip: nat, pc: Pc)

  datatype State = State(
    word: int, count: int, shared: int,
    kholder: Option<Tid>, blocked: set<Tid>, spin: Option<Tid>,
    threads: seq<Thread>)

  datatype System = System(counted: bool, progs: seq<seq<Instr>>)

  datatype Outcome = Next(state: State) | AssertionFailed

  predicate HoldsSpin(pc: Pc) {
    pc.KernelGrab? || pc.KernelRead? || pc.KernelMark? || pc.KernelQueue? || pc.KernelAdopt? || pc.KernelFree?
  }

  /** May thread `t` take a step, handing the lock to `h` if that step is a contended unlock? */
  predicate Enabled(c: System, s: State, t: Tid, h: Tid) {
    && |s.threads| == |c.progs| && t < |s.threads|
    && match s.threads[t].pc
       case Idle => s.threads[t].ip < |c.progs[t]|
       case AskLock => s.spin.None?
       case Waking(_) => s.spin.None?
       case AskUnlock => s.spin.None? && (s.blocked != {} ==> h in s.blocked && h < |s.threads|)
       case Blocked => false
       case _ => true
  }

  function Goto(s: State, t: Tid, pc: Pc): State
    requires t < |s.threads|
  {
    s.(threads := s.threads[t := s.threads[t].(pc := pc)])
  }

  /** The operation at the instruction pointer is complete. */
  function Return(s: State, t: Tid): State
    requires t < |s.threads|
  {
    s.(threads := s.threads[t := Thread(s.threads[t].ip + 1, Idle)])
  }

  function Step(c: System, s: State, t: Tid, h: Tid): Outcome
    requires Enabled(c, s, t, h)
  {
    match s.threads[t].pc
    case Idle => Begin(c, s, t)
    case Loaded(v) =>
      if s.threads[t].ip < |c.progs[t]| && c.progs[t][s.threads[t].ip].Inc? then
        Next(Return(s.(shared := (v + 1) % WORDS), t))
      else
        Next(Return(s.(shared := (v - 1) % WORDS), t))
    case CountRead => Next(Goto(s, t, CountUp(s.count)))
    case CountUp(v) => Next(Return(s.(count := (v + 1) % WORDS), t))
    case UnlockRead =>
      if s.count > 0 then (if !c.counted then AssertionFailed else Next(Goto(s, t, CountDownRead)))
      else Next(Goto(s, t, Release))
    case CountDownRead => Next(Goto(s, t, CountDown(s.count)))
    case LockCheck => if HeldBySelf(s.word, t) then AssertionFailed else Next(Goto(s, t, Grab))
    case CountDown(v) => Next(Return(s.(count := (v - 1) % WORDS), t))
    case Grab =>
      if s.word == FREE then Next(Return(s.(word := Held(t, false)), t)) else Next(Goto(s, t, AskLock))
    case TryGrab =>
      if s.word == FREE then Taken(s.(word := Held(t, false)), t, ReplyAt(c, s, t))
      else Refused(s, t, ReplyAt(c, s, t))
    case AskLock =>
      if s.kholder == Some(t) then AssertionFailed
      else if s.kholder.None? then Next(Goto(s.(spin := Some(t)), t, KernelGrab))
      else Next(Goto(s.(blocked := s.blocked + {t}), t, Blocked))
    case KernelGrab =>
      if s.word == FREE then Next(Return(s.(word := Held(t, false), spin := None), t))
      else Next(Goto(s, t, KernelRead))
    case KernelRead =>
      if IsContended(s.word) then Next(Goto(s, t, KernelQueue))
      else if s.word == FREE then Next(Goto(s, t, KernelGrab))
      else Next(Goto(s, t, KernelMark(s.word)))
    case KernelMark(seen) =>
      if s.word == seen then Next(Goto(s.(word := HolderOf(seen)), t, KernelQueue))
      else Next(Goto(s, t, KernelGrab))
    case KernelQueue =>
      var holder := HolderOf(s.word);
      if !(0 <= holder < |s.threads|) then Next(Goto(s, t, KernelAdopt))
      else if !s.kholder.None? || s.blocked != {} then AssertionFailed
      else Next(Goto(s.(kholder := Some(holder), blocked := {t}, spin := None), t, Blocked))
    case KernelAdopt => Next(Return(s.(word := Held(t, false), spin := None), t))
    case Blocked => Next(s)
    case Waking(uncontended) =>
      if s.blocked != {} && s.kholder != Some(t) && !uncontended then AssertionFailed
      else Next(Return(s.(word := Held(t, s.blocked != {})), t))
    case Release =>
      if s.word == Held(t, false) then Next(Return(s.(word := FREE), t)) else Next(Goto(s, t, AskUnlock))
    case AskUnlock => KernelUnlock(s, t, h)
    case KernelFree => Next(Return(s.(word := FREE, spin := None), t))
  }

  function ReplyAt(c: System, s: State, t: Tid): Reply
    requires |s.threads| == |c.progs| && t < |s.threads|
  {
    var Thread(ip, _) := s.threads[t];
    if ip < |c.progs[t]| && c.progs[t][ip].TryLock? then c.progs[t][ip].reply else AssertTaken
  }

  function Taken(s: State, t: Tid, reply: Reply): Outcome
    requires t < |s.threads|
  {
    if reply.AssertRefused? then AssertionFailed else Next(Return(s, t))
  }

  function Refused(s: State, t: Tid, reply: Reply): Outcome
    requires t < |s.threads|
  {
    if reply.AssertTaken? then AssertionFailed
    else if reply.AssertRefused? then Next(Return(s, t))
    else Next(s.(threads := s.threads[t := Thread(s.threads[t].ip + 1 + reply.n, Idle)]))
  }

  /** The first step of an operation: `lock`, `trylock` and `unlock` look at the word. */
  function Begin(c: System, s: State, t: Tid): Outcome
    requires |s.threads| == |c.progs| && t < |s.threads| && s.threads[t].ip < |c.progs[t]|
  {
    match c.progs[t][s.threads[t].ip]
    case Lock =>
      if c.counted then Next(Goto(s, t, if HeldBySelf(s.word, t) then CountRead else LockCheck))
      else if HeldBySelf(s.word, t) then AssertionFailed
      else Next(Goto(s, t, Grab))
    case TryLock(_) =>
      if c.counted && HeldBySelf(s.word, t) then Next(Goto(s, t, CountRead))
      else Next(Goto(s, t, TryGrab))
    case Inc => Next(Goto(s, t, Loaded(s.shared)))
    case Dec => Next(Goto(s, t, Loaded(s.shared)))
    case Unlock =>
      if !HeldBySelf(s.word, t) then AssertionFailed else Next(Goto(s, t, UnlockRead))
  }

  /** `hybrid_unlock`: hand the lock to a blocked thread, or free it. */
  function KernelUnlock(s: State, t: Tid, h: Tid): Outcome
    requires t < |s.threads| && (s.blocked != {} ==> h in s.blocked && h < |s.threads|)
  {
    if s.kholder.None? then
      if HolderOf(s.word) == t then Next(Goto(s.(spin := Some(t)), t, KernelFree)) else AssertionFailed
    else if s.kholder != Some(t) then AssertionFailed
    else if s.blocked == {} then Next(Return(s.(kholder := None, word := FREE), t))
    else
      var waiting := s.blocked - {h};
      var s' := s.(blocked := waiting, word := Held(h, waiting != {}),
                   kholder := if waiting == {} then None else Some(h));
      Next(Goto(Return(s', t), h, Waking(waiting == {})))
  }

  // ---------------------------------------------------------------- the invariant

  /** Does the word say that `t` has the lock? */
  predicate Owns(s: State, t: Tid) {
    s.word != FREE && HolderOf(s.word) == t
  }

  ghost predicate Global(c: System, s: State) {
    && |s.threads| == |c.progs| < TOP - 1
    && (s.word != FREE ==> 0 <= HolderOf(s.word) < |s.threads| && s.word <= FREE)
    && (s.kholder.Some? <==> s.blocked != {})
    && (s.kholder.Some? ==> s.word != FREE && IsContended(s.word) && s.kholder.value == HolderOf(s.word))
    && (s.spin.Some? ==> s.spin.value < |s.threads| && HoldsSpin(s.threads[s.spin.value].pc))
    && (IsContended(s.word) && s.kholder.None? ==>
          s.spin.Some? && s.threads[s.spin.value].pc.KernelQueue?)
    && (forall t | t in s.blocked :: t < |s.threads| && s.threads[t].pc.Blocked?)
    && (s.word == FREE ==> s.count == 0 && s.shared == 0)
  }

  /** What holds of one thread: what its position says about the lock, and the lock about its progress. */
  ghost predicate Local(c: System, s: State, t: Tid)
    requires t < |s.threads| == |c.progs|
  {
    Fits(c.progs[t], s, t, s.threads[t])
  }

  ghost predicate Fits(p: seq<Instr>, s: State, t: Tid, th: Thread) {
    var Thread(ip, pc) := th;
    && ip <= |p| && (!pc.Idle? ==> ip < |p|)
    && (pc.Blocked? ==> t in s.blocked)
    && (HoldsSpin(pc) ==> s.spin == Some(t) && s.kholder.None?)
    && (pc.KernelQueue? ==> s.word != FREE && IsContended(s.word))
    && (pc.KernelMark? ==> TOP <= pc.seen < FREE)
    && !pc.KernelAdopt?
    && (pc.TryGrab? ==> p[ip].TryLock? && !p[ip].reply.AssertTaken? && (p[ip].reply.AssertRefused? <==> Owns(s, t)))
    && (Wanting(pc) ==> p[ip].Lock? && !Owns(s, t))
    && (pc.Waking? ==> p[ip].Lock? && Owns(s, t) && s.count == 0 && s.shared == 0)
    && (Wanting(pc) || pc.Waking? ==> Depth(p, ip) == 0)
    && (!Wanting(pc) && !pc.Waking? ==>
          && (Owns(s, t) <==> Depth(p, ip) > 0)
          && (Owns(s, t) ==> s.count == Depth(p, ip) - 1 && s.shared == Net(p, ip) % WORDS))
    && (pc.Loaded? ==> (p[ip].Inc? || p[ip].Dec?) && Owns(s, t) && pc.v == s.shared)
    && (pc.CountRead? || pc.CountUp? ==> DepthChange(p[ip]) == 1 && Owns(s, t))
    && (pc.CountUp? ==> pc.v == s.count)
    && (pc.UnlockRead? || pc.CountDownRead? || pc.CountDown? ==> p[ip].Unlock? && Owns(s, t))
    && (pc.CountDownRead? || pc.CountDown? ==> s.count > 0)
    && (pc.CountDown? ==> pc.v == s.count)
    && (pc.Release? || pc.AskUnlock? || pc.KernelFree? ==> p[ip].Unlock? && Owns(s, t) && s.count == 0)
  }

  /** In the middle of taking the lock, without having it yet. */
  predicate Wanting(pc: Pc) {
    pc.LockCheck? || pc.Grab? || pc.AskLock? || (HoldsSpin(pc) && !pc.KernelFree?) || pc.Blocked?
  }

  ghost predicate Inv(c: System, s: State) {
    && Global(c, s)
    && (forall t | 0 <= t < |c.progs| :: Disciplined(c.progs[t], c.counted))
    && (forall t | 0 <= t < |s.threads| :: Local(c, s, t))
  }

  // ---------------------------------------------------------------- every step keeps it

  /** What the discipline says at one instruction, and the effect of completing it. */
  lemma AtInstruction(p: seq<Instr>, counted: bool, k: nat)
    requires Disciplined(p, counted) && k < |p|
    ensures 0 <= Depth(p, k) <= WORDS && 0 <= Depth(p, k + 1) <= WORDS && (!counted ==> Depth(p, k) <= 1)
    ensures Depth(p, k) == 0 ==> Net(p, k) == 0
    ensures Depth(p, k + 1) == 0 ==> Net(p, k + 1) == 0
    ensures match p[k]
      case Lock => (counted || Depth(p, k) == 0) && Depth(p, k + 1) == Depth(p, k) + 1 && Net(p, k + 1) == Net(p, k)
      case TryLock(_) =>
        TryFits(p, k, counted) && Depth(p, k + 1) == Depth(p, k) + DepthChange(p[k]) && Net(p, k + 1) == Net(p, k)
      case Inc => Depth(p, k) > 0 && Depth(p, k + 1) == Depth(p, k) && Net(p, k + 1) == Net(p, k) + 1
      case Dec => Depth(p, k) > 0 && Depth(p, k + 1) == Depth(p, k) && Net(p, k + 1) == Net(p, k) - 1
      case Unlock => Depth(p, k) > 0 && Depth(p, k + 1) == Depth(p, k) - 1 && Net(p, k + 1) == Net(p, k)
  {
    UncountedIsFlat(p, counted, k);
  }

  lemma {:induction false} UncountedIsFlat(p: seq<Instr>, counted: bool, k: nat)
    requires Disciplined(p, counted) && k <= |p|
    ensures !counted ==> Depth(p, k) <= 1
  {
    if k > 0 { UncountedIsFlat(p, counted, k - 1); }
  }

  /** A thread that did not move is not disturbed if ownership, and what the owner sees, stay as they are. */
  lemma Undisturbed(c: System, s: State, s': State, u: Tid)
    requires u < |s.threads| == |s'.threads| == |c.progs| && Local(c, s, u) && s'.threads[u] == s.threads[u]
    requires s.threads[u].pc.Blocked? ==> u in s'.blocked
    requires HoldsSpin(s.threads[u].pc) ==> s'.spin == s.spin && s'.kholder == s.kholder
    requires s.threads[u].pc.KernelQueue? ==> s'.word == s.word
    requires Owns(s', u) <==> Owns(s, u)
    requires Owns(s, u) ==> s'.count == s.count && s'.shared == s.shared
    ensures Local(c, s', u)
  {}

  /** Everyone but `t` (and `h`) is left alone. */
  lemma OthersUndisturbed(c: System, s: State, s': State, t: Tid, h: Tid)
    requires Inv(c, s) && t < |s.threads| && h < |s.threads| && |s'.threads| == |s.threads|
    requires forall u | 0 <= u < |s.threads| && u != t && u != h ::
      && s'.threads[u] == s.threads[u]
      && (u in s.blocked ==> u in s'.blocked)
      && (Owns(s', u) <==> Owns(s, u))
      && (Owns(s, u) ==> s'.count == s.count && s'.shared == s.shared)
      && (s.spin == Some(u) ==> s'.spin == s.spin && s'.kholder == s.kholder && (IsContended(s.word) ==> s'.word == s.word))
    ensures forall u | 0 <= u < |s.threads| && u != t && u != h :: Local(c, s', u)
  {
    hide Disciplined, Depth, Net, Owns, IsContended;
    forall u | 0 <= u < |s.threads| && u != t && u != h
      ensures Local(c, s', u)
    {
      Undisturbed(c, s, s', u);
    }
  }

  /** A step that changes nothing but where `t` is, outside the spinlock and the queue. */
  lemma GotoKeepsInv(c: System, s: State, t: Tid, pc: Pc)
    requires Inv(c, s) && t < |s.threads| && Fits(c.progs[t], s, t, s.threads[t].(pc := pc))
    requires !HoldsSpin(s.threads[t].pc) && !s.threads[t].pc.Blocked?
    ensures Inv(c, Goto(s, t, pc))
  {
    hide Disciplined, Depth, Net, Local, Fits;
    var s' := Goto(s, t, pc);
    OthersUndisturbed(c, s, s', t, t);
    FitsElsewhere(c.progs[t], s, s', t, s'.threads[t]);
    assert Local(c, s', t) by { LocalIsFits(c, s', t); }
  }

  lemma LocalIsFits(c: System, s: State, t: Tid)
    requires t < |s.threads| == |c.progs|
    ensures Local(c, s, t) <==> Fits(c.progs[t], s, t, s.threads[t])
  {}

  lemma FitsElsewhere(p: seq<Instr>, s: State, s': State, t: Tid, th: Thread)
    requires Fits(p, s, t, th) && s' == s.(threads := s'.threads)
    ensures Fits(p, s', t, th)
  {}

  lemma BeginKeepsInv(c: System, s: State, t: Tid)
    requires Inv(c, s) && Enabled(c, s, t, t) && s.threads[t].pc.Idle?
    ensures Begin(c, s, t).Next? && Inv(c, Begin(c, s, t).state)
  {
    hide Disciplined, Depth, Net, Step, Inv, Local, Fits, Global;
    InvAt(c, s, t);
    var pc := BeginFits(c, s, t);
    GotoKeepsInv(c, s, t, pc);
  }

  lemma BeginFits(c: System, s: State, t: Tid) returns (pc: Pc)
    requires |s.threads| == |c.progs| && Enabled(c, s, t, t) && s.threads[t].pc.Idle?
    requires Global(c, s) && Fits(c.progs[t], s, t, s.threads[t]) && Disciplined(c.progs[t], c.counted)
    ensures Begin(c, s, t) == Next(Goto(s, t, pc)) && Fits(c.progs[t], s, t, s.threads[t].(pc := pc))
  {
    hide Disciplined, Depth, Net, Step;
    AtInstruction(c.progs[t], c.counted, s.threads[t].ip);
    pc := match c.progs[t][s.threads[t].ip]
      case Lock => if !c.counted then Grab else if HeldBySelf(s.word, t) then CountRead else LockCheck
      case TryLock(_) => if c.counted && HeldBySelf(s.word, t) then CountRead else TryGrab
      case Unlock => UnlockRead
      case _ => Loaded(s.shared);
  }

  lemma InvAt(c: System, s: State, t: Tid)
    requires Inv(c, s) && t < |s.threads|
    ensures |s.threads| == |c.progs| && Global(c, s) && Disciplined(c.progs[t], c.counted)
    ensures Local(c, s, t) && Fits(c.progs[t], s, t, s.threads[t])
  {}

  lemma StoreKeepsInv(c: System, s: State, t: Tid, h: Tid)
    requires Inv(c, s) && Enabled(c, s, t, h)
    requires s.threads[t].pc.Loaded? || s.threads[t].pc.CountUp? || s.threads[t].pc.CountDown?
    ensures Step(c, s, t, h).Next? && Inv(c, Step(c, s, t, h).state)
  {
    hide Disciplined, Depth, Net, Begin, KernelUnlock, Local, Fits;
    InvAt(c, s, t);
    StoreFits(c, s, t, h);
    var s' := Step(c, s, t, h).state;
    OthersUndisturbed(c, s, s', t, t);
    LocalIsFits(c, s', t);
  }

  lemma StoreFits(c: System, s: State, t: Tid, h: Tid)
    requires |s.threads| == |c.progs| && Enabled(c, s, t, h)
    requires s.threads[t].pc.Loaded? || s.threads[t].pc.CountUp? || s.threads[t].pc.CountDown?
    requires Global(c, s) && Fits(c.progs[t], s, t, s.threads[t]) && Disciplined(c.progs[t], c.counted)
    ensures Owns(s, t) && Step(c, s, t, h).Next?
    ensures var s' := Step(c, s, t, h).state; t < |s'.threads| && Fits(c.progs[t], s', t, s'.threads[t])
  {
    hide Disciplined, Depth, Net, Begin, KernelUnlock;
    AtInstruction(c.progs[t], c.counted, s.threads[t].ip);
  }

  lemma ReadKeepsInv(c: System, s: State, t: Tid, h: Tid)
    requires Inv(c, s) && Enabled(c, s, t, h)
    requires var pc := s.threads[t].pc; pc.CountRead? || pc.UnlockRead? || pc.CountDownRead? || pc.LockCheck?
    ensures Step(c, s, t, h).Next? && Inv(c, Step(c, s, t, h).state)
  {
    hide Disciplined, Depth, Net, Step, Inv, Local, Fits, Global;
    InvAt(c, s, t);
    var pc := ReadFits(c, s, t, h);
    GotoKeepsInv(c, s, t, pc);
  }

  lemma ReadFits(c: System, s: State, t: Tid, h: Tid) returns (pc: Pc)
    requires |s.threads| == |c.progs| && Enabled(c, s, t, h)
    requires var pc := s.threads[t].pc; pc.CountRead? || pc.UnlockRead? || pc.CountDownRead? || pc.LockCheck?
    requires Global(c, s) && Fits(c.progs[t], s, t, s.threads[t]) && Disciplined(c.progs[t], c.counted)
    ensures Step(c, s, t, h) == Next(Goto(s, t, pc)) && Fits(c.progs[t], s, t, s.threads[t].(pc := pc))
  {
    hide Disciplined, Depth, Net, Begin, KernelUnlock;
    AtInstruction(c.progs[t], c.counted, s.threads[t].ip);
    pc := match s.threads[t].pc
      case CountRead => CountUp(s.count)
      case CountDownRead => CountDown(s.count)
      case UnlockRead => if s.count > 0 then CountDownRead else Release
      case _ => Grab;
  }

  lemma GrabKeepsInv(c: System, s: State, t: Tid, h: Tid)
    requires Inv(c, s) && Enabled(c, s, t, h) && (s.threads[t].pc.Grab? || s.threads[t].pc.KernelGrab?)
    ensures Step(c, s, t, h).Next? && Inv(c, Step(c, s, t, h).state)
  {
    hide Disciplined, Depth, Net, Begin, KernelUnlock, TryFits, Taken, Refused;
    assert Local(c, s, t);
    AtInstruction(c.progs[t], c.counted, s.threads[t].ip);
    var s' := Step(c, s, t, h).state;
    OthersUndisturbed(c, s, s', t, t);
  }

  lemma TryKeepsInv(c: System, s: State, t: Tid, h: Tid)
    requires Inv(c, s) && Enabled(c, s, t, h) && s.threads[t].pc.TryGrab?
    ensures Step(c, s, t, h).Next? && Inv(c, Step(c, s, t, h).state)
  {
    hide Disciplined, Depth, Net, Begin, KernelUnlock;
    assert Local(c, s, t);
    AtInstruction(c.progs[t], c.counted, s.threads[t].ip);
    var s' := Step(c, s, t, h).state;
    if s.word != FREE && c.progs[t][s.threads[t].ip].reply.OrSkip? {
      AtPlace(c.progs[t], c.counted, s'.threads[t].ip);
    }
    OthersUndisturbed(c, s, s', t, t);
  }

  lemma AtPlace(p: seq<Instr>, counted: bool, k: nat)
    requires Disciplined(p, counted) && k <= |p|
    ensures 0 <= Depth(p, k) <= WORDS && (Depth(p, k) == 0 ==> Net(p, k) == 0)
  {}

  lemma AskLockKeepsInv(c: System, s: State, t: Tid, h: Tid)
    requires Inv(c, s) && Enabled(c, s, t, h) && s.threads[t].pc.AskLock?
    ensures Step(c, s, t, h).Next? && Inv(c, Step(c, s, t, h).state)
  {
    hide Disciplined, Depth, Net, Begin, KernelUnlock;
    assert Local(c, s, t);
    var s' := Step(c, s, t, h).state;
    OthersUndisturbed(c, s, s', t, t);
  }

  lemma QueueKeepsInv(c: System, s: State, t: Tid, h: Tid)
    requires Inv(c, s) && Enabled(c, s, t, h)
    requires s.threads[t].pc.KernelRead? || s.threads[t].pc.KernelMark? || s.threads[t].pc.KernelQueue?
    ensures Step(c, s, t, h).Next? && Inv(c, Step(c, s, t, h).state)
  {
    hide Disciplined, Depth, Net, Begin, TryFits, Taken, Refused;
    assert Local(c, s, t);
    var s' := Step(c, s, t, h).state;
    OthersUndisturbed(c, s, s', t, t);
  }

  lemma WakeKeepsInv(c: System, s: State, t: Tid, h: Tid)
    requires Inv(c, s) && Enabled(c, s, t, h)
    requires s.threads[t].pc.Waking? || s.threads[t].pc.Release? || s.threads[t].pc.KernelFree?
    ensures Step(c, s, t, h).Next? && Inv(c, Step(c, s, t, h).state)
  {
    hide Disciplined, Depth, Net, Begin, TryFits, Taken, Refused;
    assert Local(c, s, t);
    AtInstruction(c.progs[t], c.counted, s.threads[t].ip);
    var s' := Step(c, s, t, h).state;
    OthersUndisturbed(c, s, s', t, t);
  }

  lemma UnlockKeepsInv(c: System, s: State, t: Tid, h: Tid)
    requires Inv(c, s) && Enabled(c, s, t, h) && s.threads[t].pc.AskUnlock?
    ensures Step(c, s, t, h).Next? && Inv(c, Step(c, s, t, h).state)
  {
    hide Inv, KernelUnlock;
    if s.blocked != {} { HandOverKeepsInv(c, s, t, h); } else { FreeKeepsInv(c, s, t, h); }
  }

  lemma FreeKeepsInv(c: System, s: State, t: Tid, h: Tid)
    requires Inv(c, s) && Enabled(c, s, t, h) && s.threads[t].pc.AskUnlock? && s.blocked == {}
    ensures KernelUnlock(s, t, h).Next? && Inv(c, KernelUnlock(s, t, h).state)
  {
    hide Disciplined, Depth, Net, Step;
    assert Local(c, s, t);
    AtInstruction(c.progs[t], c.counted, s.threads[t].ip);
    OthersUndisturbed(c, s, KernelUnlock(s, t, h).state, t, t);
  }

  lemma HandOverKeepsInv(c: System, s: State, t: Tid, h: Tid)
    requires Inv(c, s) && Enabled(c, s, t, h) && s.threads[t].pc.AskUnlock? && s.blocked != {}
    ensures KernelUnlock(s, t, h).Next? && Inv(c, KernelUnlock(s, t, h).state)
  {
    hide Disciplined, Depth, Net, Step;
    assert Local(c, s, t) && Local(c, s, h);
    AtInstruction(c.progs[t], c.counted, s.threads[t].ip);
    OthersUndisturbed(c, s, KernelUnlock(s, t, h).state, t, h);
  }

  lemma StepKeepsInv(c: System, s: State, t: Tid, h: Tid)
    requires Inv(c, s) && Enabled(c, s, t, h)
    ensures Step(c, s, t, h).Next? && Inv(c, Step(c, s, t, h).state)
  {
    hide Inv, Begin, KernelUnlock;
    match s.threads[t].pc
    case Idle => BeginKeepsInv(c, s, t);
    case Loaded(_) => StoreKeepsInv(c, s, t, h);
    case CountRead => ReadKeepsInv(c, s, t, h);
    case UnlockRead => ReadKeepsInv(c, s, t, h);
    case CountDownRead => ReadKeepsInv(c, s, t, h);
    case LockCheck => ReadKeepsInv(c, s, t, h);
    case CountUp(_) => StoreKeepsInv(c, s, t, h);
    case CountDown(_) => StoreKeepsInv(c, s, t, h);
    case Grab => GrabKeepsInv(c, s, t, h);
    case TryGrab => TryKeepsInv(c, s, t, h);
    case KernelAdopt => NeverReached(c, s, t);
    case AskLock => AskLockKeepsInv(c, s, t, h);
    case KernelGrab => GrabKeepsInv(c, s, t, h);
    case KernelRead => QueueKeepsInv(c, s, t, h);
    case KernelMark(_) => QueueKeepsInv(c, s, t, h);
    case KernelQueue => QueueKeepsInv(c, s, t, h);
    case Waking(_) => WakeKeepsInv(c, s, t, h);
    case Release => WakeKeepsInv(c, s, t, h);
    case AskUnlock => UnlockKeepsInv(c, s, t, h);
    case KernelFree => WakeKeepsInv(c, s, t, h);
  }

  /** No holder is dead. */
  lemma NeverReached(c: System, s: State, t: Tid)
    requires Inv(c, s) && t < |s.threads|
    ensures !s.threads[t].pc.KernelAdopt?
  {
    assert Local(c, s, t);
  }

  // ---------------------------------------------------------------- what try-lock answers

  /** A try-lock by a thread that does not hold the lock, or may not hold it twice, goes on to compete for the
      word, and nothing but its own position has changed; by the holder of a counted mutex it goes on to count. */
  lemma TryLockBegins(c: System, s: State, t: Tid)
    requires Inv(c, s) && Enabled(c, s, t, t) && s.threads[t].pc.Idle? && c.progs[t][s.threads[t].ip].TryLock?
    ensures Step(c, s, t, t) == Next(Goto(s, t, if c.counted && Owns(s, t) then CountRead else TryGrab))
  {
    hide Disciplined, Depth, Net, Fits;
  }

  /** At its compare-and-set the try-lock takes the lock if and only if nobody has it. Taken, it belongs to this
      thread alone; refused, nothing but the thread's own position has changed. */
  lemma TryLockDecides(c: System, s: State, t: Tid, h: Tid)
    requires Inv(c, s) && t < |s.threads| && s.threads[t].pc.TryGrab?
    ensures Enabled(c, s, t, h) && Step(c, s, t, h).Next?
    ensures var s' := Step(c, s, t, h).state;
      var Thread(ip, _) := s.threads[t];
      && ip < |c.progs[t]| && c.progs[t][ip].TryLock?
      && (s.word == FREE <==> forall u: Tid :: !Owns(s, u))
      && (if forall u: Tid :: !Owns(s, u) then
            && (forall u: Tid :: Owns(s', u) <==> u == t) && s'.count == 0 && s'.shared == 0
            && s' == s.(word := s'.word, threads := s.threads[t := Thread(ip + 1, Idle)])
          else
            && s' == s.(threads := s'.threads) && |s'.threads| == |s.threads|
            && s'.threads == s.threads[t := Thread(s'.threads[t].ip, Idle)]
            && s'.threads[t].ip == ip + 1 + match c.progs[t][ip].reply { case OrSkip(n) => n case _ => 0 })
  {
    hide Disciplined, Depth, Net, Begin, KernelUnlock;
    InvAt(c, s, t);
    if s.word == FREE {
      assert forall u: Tid :: !Owns(s, u);
    } else {
      assert Owns(s, HolderOf(s.word));
    }
  }

  /** An operation fails its first assertion exactly when it is misused: an unlock by a thread that does not hold
      the lock, or a second lock by the holder of an uncounted one. */
  lemma MisuseFails(c: System, s: State, t: Tid)
    requires Global(c, s) && Enabled(c, s, t, t) && s.threads[t].pc.Idle?
    ensures var i := c.progs[t][s.threads[t].ip];
      Step(c, s, t, t).AssertionFailed? <==> (i.Unlock? && !Owns(s, t)) || (i.Lock? && !c.counted && Owns(s, t))
  {}

  /** A contended unlock hands the lock straight to the blocked thread that is woken: nobody can take it in between.
      The kernel goes on tracking the lock, and the word says so, if and only if others still wait. */
  lemma HandsOver(c: System, s: State, t: Tid, h: Tid)
    requires Inv(c, s) && Enabled(c, s, t, h) && s.threads[t].pc.AskUnlock? && s.blocked != {}
    ensures Step(c, s, t, h).Next?
    ensures var s' := Step(c, s, t, h).state;
      && h != t && s'.threads == s.threads[t := Thread(s.threads[t].ip + 1, Idle)][h := s'.threads[h]]
      && s'.threads[h] == Thread(s.threads[h].ip, Waking(s'.blocked == {})) && s'.blocked == s.blocked - {h}
      && (forall u: Tid :: Owns(s', u) <==> u == h)
      && (IsContended(s'.word) <==> s'.blocked != {}) && (s'.kholder == if s'.blocked != {} then Some(h) else None)
  {
    hide Disciplined, Depth, Net, Begin;
    assert Local(c, s, t) && Local(c, s, h);
  }

  /** A contended lock whose holder is no thread any more is taken over, uncontended, by the thread that finds it. */
  lemma DeadHolderReplaced(c: System, s: State, t: Tid, h: Tid)
    requires |s.threads| == |c.progs| < TOP && t < |s.threads| && s.threads[t].pc.KernelQueue?
    requires HolderOf(s.word) < 0 || HolderOf(s.word) >= |s.threads|
    ensures Enabled(c, s, t, h) && Step(c, s, t, h) == Next(Goto(s, t, KernelAdopt))
    ensures var s1 := Goto(s, t, KernelAdopt);
      && Enabled(c, s1, t, h) && Step(c, s1, t, h).Next?
      && var s2 := Step(c, s1, t, h).state;
         && Owns(s2, t) && !IsContended(s2.word) && s2.spin.None?
         && s2 == s.(word := s2.word, spin := None, threads := s.threads[t := Thread(s.threads[t].ip + 1, Idle)])
  {
    hide Begin, KernelUnlock;
    var s1 := Goto(s, t, KernelAdopt);
    assert s1.threads[t := Thread(s.threads[t].ip + 1, Idle)] == s.threads[t := Thread(s.threads[t].ip + 1, Idle)];
  }

  /** What the kernel asserts, in any state: a thread that asks for the lock is not its holder, a lock that is not
      tracked has no queue, and a thread that wakes up is the holder unless nobody waits. */
  lemma KernelAsserts(c: System, s: State, t: Tid, h: Tid)
    requires Enabled(c, s, t, h)
    ensures s.threads[t].pc.AskLock? ==> (Step(c, s, t, h).AssertionFailed? <==> s.kholder == Some(t))
    ensures s.threads[t].pc.KernelQueue? && 0 <= HolderOf(s.word) < |s.threads| ==>
      (Step(c, s, t, h).AssertionFailed? <==> s.kholder.Some? || s.blocked != {})
    ensures s.threads[t].pc.Waking? ==>
      (Step(c, s, t, h).AssertionFailed? <==>
        !(s.kholder == Some(t) || s.threads[t].pc.uncontended || s.blocked == {}))
  {
    hide Begin, KernelUnlock;
  }

  function PcOf(s: State, t: Tid): Pc {
    if t < |s.threads| then s.threads[t].pc else Idle
  }

  /** The kernel is entered under contention only: to lock when another thread has the lock, to unlock when
      another thread has marked it. */
  lemma KernelOnlyUnderContention(c: System, s: State, t: Tid, h: Tid)
    requires Inv(c, s) && Enabled(c, s, t, h) && Step(c, s, t, h).Next?
    ensures var pc, pc' := PcOf(s, t), PcOf(Step(c, s, t, h).state, t);
      && (pc'.AskLock? && !pc.AskLock? ==> exists u: Tid :: u != t && u < |s.threads| && Owns(s, u))
      && (pc'.AskUnlock? && !pc.AskUnlock? ==> Owns(s, t) && IsContended(s.word))
  {
    hide Disciplined, Depth, Net;
    InvAt(c, s, t);
    if s.word != FREE {
      assert Owns(s, HolderOf(s.word));
    }
  }

  // ---------------------------------------------------------------- whole runs

  function Start(c: System): State {
    State(FREE, 0, 0, None, {}, None, seq(|c.progs|, _ => Thread(0, Idle)))
  }

  /** Runs a schedule; an entry whose thread cannot move is skipped. */
  function Run(c: System, s: State, sched: seq<(Tid, Tid)>): Outcome
    decreases |sched|
  {
    if sched == [] then Next(s)
    else
      var (t, h) := sched[0];
      if !Enabled(c, s, t, h) then Run(c, s, sched[1..])
      else
        match Step(c, s, t, h)
        case AssertionFailed => AssertionFailed
        case Next(s') => Run(c, s', sched[1..])
  }

  ghost predicate Good(c: System) {
    |c.progs| < TOP - 1 && forall t | 0 <= t < |c.progs| :: Disciplined(c.progs[t], c.counted)
  }

  lemma {:induction false} RunKeepsInv(c: System, s: State, sched: seq<(Tid, Tid)>)
    requires Inv(c, s)
    ensures Run(c, s, sched).Next? && Inv(c, Run(c, s, sched).state)
    decreases |sched|
  {
    hide Inv, Step, Enabled;
    if sched != [] {
      var (t, h) := sched[0];
      if Enabled(c, s, t, h) {
        StepKeepsInv(c, s, t, h);
        RunKeepsInv(c, Step(c, s, t, h).state, sched[1..]);
      } else {
        RunKeepsInv(c, s, sched[1..]);
      }
    }
  }

  /** Does `t` count as inside the lock, by its own progress? */
  predicate Inside(c: System, s: State, t: Tid) {
    t < |s.threads| && t < |c.progs| && s.threads[t].ip <= |c.progs[t]| && Depth(c.progs[t], s.threads[t].ip) > 0
  }

  predicate Finished(c: System, s: State, t: Tid) {
    t < |s.threads| && t < |c.progs| && s.threads[t] == Thread(|c.progs[t]|, Idle)
  }

  /**
   Every interleaving of disciplined programs: no assertion fails, at most one
   thread is inside, and the shared word is what that thread has added to it,
   or 0 when no thread is inside.
   */
  lemma EveryRunIsSafe(c: System, sched: seq<(Tid, Tid)>)
    requires Good(c)
    ensures Run(c, Start(c), sched).Next?
    ensures var s := Run(c, Start(c), sched).state;
      && (forall t: Tid, u: Tid | Inside(c, s, t) && Inside(c, s, u) :: t == u)
      && (forall t: Tid | Inside(c, s, t) :: s.shared == Net(c.progs[t], s.threads[t].ip) % WORDS)
      && (s.word == FREE ==> s.shared == 0)
      && (forall t: Tid | Inside(c, s, t) :: s.word != FREE && HeldBySelf(s.word, t))
  {
    StartsWell(c);
    RunKeepsInv(c, Start(c), sched);
    var s := Run(c, Start(c), sched).state;
    forall t: Tid | Inside(c, s, t)
      ensures Owns(s, t) && s.shared == Net(c.progs[t], s.threads[t].ip) % WORDS
    {
      assert Local(c, s, t);
    }
  }

  lemma StartsWell(c: System)
    requires Good(c)
    ensures Inv(c, Start(c))
  {
    forall t | 0 <= t < |c.progs|
      ensures Local(c, Start(c), t)
    {
      assert c.progs[t] == c.progs[t];
    }
  }

  /** When every thread has finished, the lock is free, nothing is left in the kernel, and memory is as it was. */
  lemma EndsFree(c: System, sched: seq<(Tid, Tid)>)
    requires Good(c)
    requires Run(c, Start(c), sched).Next? && forall t: Tid | t < |c.progs| :: Finished(c, Run(c, Start(c), sched).state, t)
    ensures var s := Run(c, Start(c), sched).state;
      s.word == FREE && s.count == 0 && s.shared == 0 && s.kholder.None? && s.blocked == {} && s.spin.None?
  {
    StartsWell(c);
    RunKeepsInv(c, Start(c), sched);
    var s := Run(c, Start(c), sched).state;
    if s.word != FREE {
      DoneDoesNotOwn(c, s, HolderOf(s.word));
      assert false;
    }
    assert s.spin.Some? ==> Finished(c, s, s.spin.value);
  }

  lemma DoneDoesNotOwn(c: System, s: State, t: Tid)
    requires Inv(c, s) && Finished(c, s, t)
    ensures !Owns(s, t)
  {
    assert Local(c, s, t);
    assert Disciplined(c.progs[t], c.counted);
  }

  // The check that closes every test: once the threads have finished, the parent tries the lock, expects to get
  // it, and unlocks it.

  const ClosingCheck: seq<Instr> := [TryLock(AssertTaken), Unlock]

  function WithParent(c: System): System {
    c.(progs := c.progs + [ClosingCheck])
  }

  /** A state at rest with the parent added, after `k` of the five accesses its check makes. */
  function Closing(s: State, k: nat): State
    requires k <= 5
  {
    var t := |s.threads|;
    var th := [Thread(0, Idle), Thread(0, TryGrab), Thread(1, Idle), Thread(1, UnlockRead), Thread(1, Release),
               Thread(2, Idle)][k];
    s.(word := if 2 <= k <= 4 then Held(t, false) else FREE, threads := s.threads + [th])
  }

  ghost predicate AtRest(c: System, s: State) {
    && |s.threads| == |c.progs| < TOP - 1 && (forall t: Tid | t < |c.progs| :: Finished(c, s, t))
    && s.word == FREE && s.count == 0 && s.shared == 0 && s.kholder.None? && s.blocked == {} && s.spin.None?
  }

  lemma ClosingStep(c: System, s: State, k: nat, t: Tid, h: Tid)
    requires AtRest(c, s) && k <= 5
    ensures Enabled(WithParent(c), Closing(s, k), t, h) <==> t == |c.progs| && k < 5
    ensures t == |c.progs| && k < 5 ==> Step(WithParent(c), Closing(s, k), t, h) == Next(Closing(s, k + 1))
  {
    var c', s' := WithParent(c), Closing(s, k);
    if t < |c.progs| {
      assert Finished(c, s, t) && s'.threads[t] == s.threads[t] && c'.progs[t] == c.progs[t];
    } else if t == |c.progs| && k < 5 {
      assert c'.progs[t] == ClosingCheck;
      assert s'.threads[t := Closing(s, k + 1).threads[t]] == Closing(s, k + 1).threads;
    }
  }

  /** Whatever the schedule, the check only moves forward, and gets as far as the schedule moves it. */
  lemma {:induction false} ClosingRuns(c: System, s: State, k: nat, sched: seq<(Tid, Tid)>) returns (j: nat)
    requires AtRest(c, s) && k <= 5
    ensures k <= j <= 5 && Run(WithParent(c), Closing(s, k), sched) == Next(Closing(s, j))
    decreases |sched|
  {
    hide Step, Enabled, AtRest, Closing, WithParent;
    j := k;
    if sched != [] {
      var (t, h) := sched[0];
      ClosingStep(c, s, k, t, h);
      if t == |c.progs| && k < 5 {
        j := ClosingRuns(c, s, k + 1, sched[1..]);
      } else {
        j := ClosingRuns(c, s, k, sched[1..]);
      }
    }
  }

  /**
   After any run in which every thread has finished, the closing check never
   fails its assertion, whatever the schedule. When nobody can move any more the
   parent has had the lock and the lock is free again.
   */
  lemma ClosingCheckSucceeds(c: System, sched: seq<(Tid, Tid)>, more: seq<(Tid, Tid)>)
    requires Good(c)
    requires Run(c, Start(c), sched).Next? && forall t: Tid | t < |c.progs| :: Finished(c, Run(c, Start(c), sched).state, t)
    ensures var c' := c.(progs := c.progs + [[TryLock(AssertTaken), Unlock]]);
      var s := Run(c, Start(c), sched).state;
      var r := Run(c', s.(threads := s.threads + [Thread(0, Idle)]), more);
      && r.Next? && r.state.shared == 0
      && ((forall t: Tid, h: Tid :: !Enabled(c', r.state, t, h)) ==>
            Finished(c', r.state, |c.progs|) && r.state.word == FREE)
  {
    hide Run, Step, Enabled;
    EndsFree(c, sched);
    StartsWell(c);
    RunKeepsInv(c, Start(c), sched);
    var s := Run(c, Start(c), sched).state;
    SameSize(c, s);
    assert Closing(s, 0) == s.(threads := s.threads + [Thread(0, Idle)]);
    var j := ClosingRuns(c, s, 0, more);
    ClosingStep(c, s, j, |c.progs|, 0);
  }

  /** No deadlock and no lost wake-up: while a thread has not finished, some thread can move. */
  lemma SomeoneCanMove(c: System, s: State, u: Tid) returns (t: Tid, h: Tid)
    requires Inv(c, s) && u < |s.threads| && !Finished(c, s, u)
    ensures Enabled(c, s, t, h)
  {
    hide Disciplined;
    assert Local(c, s, u);
    h := if s.blocked == {} then 0 else var x :| x in s.blocked; x;
    if s.spin.Some? {
      t := s.spin.value;
    } else if s.threads[u].pc.Blocked? {
      t := s.kholder.value;
      assert Local(c, s, t);
      if Finished(c, s, t) { DoneDoesNotOwn(c, s, t); }
    } else {
      t := u;
    }
  }

  // ---------------------------------------------------------------- every run is finite

  /** Instructions not yet completed. */
  function Remaining(c: System, ts: seq<Thread>): nat
    requires |ts| <= |c.progs|
  {
    if ts == [] then 0
    else
      var n := |ts| - 1;
      Remaining(c, ts[..n]) + if ts[n].ip <= |c.progs[n]| then |c.progs[n]| - ts[n].ip else 0
  }

  /** How far one operation still is from completing or blocking, if no other thread completes first. */
  function Distance(pc: Pc, word: int): (d: nat)
    ensures d <= 12
  {
    match pc
    case Idle => 12
    case LockCheck => 11
    case Grab => 10
    case AskLock => 9
    case KernelMark(seen) => if word == seen then 4 else if word == FREE then 3 else 7
    case KernelGrab => if word == FREE then 2 else 6
    case KernelRead => if IsContended(word) || word == FREE then 3 else 5
    case KernelQueue => 2
    case UnlockRead => 4
    case Release => 3
    case AskUnlock => 2
    case CountDownRead => 2
    case CountRead => 2
    case Blocked => 0
    case _ => 1
  }

  function Distances(ts: seq<Thread>, word: int): (d: nat)
    ensures d <= 12 * |ts|
  {
    if ts == [] then 0
    else Distances(ts[..|ts| - 1], word) + Distance(ts[|ts| - 1].pc, word)
  }

  function Rank(c: System, s: State): nat
    requires |s.threads| == |c.progs|
  {
    Remaining(c, s.threads) * (12 * |c.progs| + 1) + Distances(s.threads, s.word)
  }

  lemma {:induction false} RemainingAfter(c: System, ts: seq<Thread>, t: nat, x: Thread)
    requires |ts| <= |c.progs| && t < |ts| && x.ip <= |c.progs[t]| && ts[t].ip <= |c.progs[t]|
    ensures Remaining(c, ts[t := x]) == Remaining(c, ts) + ts[t].ip - x.ip
  {
    var n := |ts| - 1;
    if t == n {
      assert ts[t := x][..n] == ts[..n];
    } else {
      assert ts[t := x][..n] == ts[..n][t := x];
      RemainingAfter(c, ts[..n], t, x);
    }
  }

  /** Only the thread that moved changes its distance. */
  lemma {:induction false} DistancesAfter(ts: seq<Thread>, t: nat, x: Thread, word: int, word': int)
    requires t < |ts|
    requires forall u | 0 <= u < |ts| && u != t :: Distance(ts[u].pc, word') == Distance(ts[u].pc, word)
    ensures Distances(ts[t := x], word') ==
      Distances(ts, word) - Distance(ts[t].pc, word) + Distance(x.pc, word')
  {
    hide Distance;
    var n := |ts| - 1;
    if t == n {
      assert ts[t := x][..n] == ts[..n];
      SameDistances(ts[..n], word, word');
    } else {
      assert ts[t := x][..n] == ts[..n][t := x];
      DistancesAfter(ts[..n], t, x, word, word');
    }
  }

  lemma {:induction false} SameDistances(ts: seq<Thread>, word: int, word': int)
    requires forall u | 0 <= u < |ts| :: Distance(ts[u].pc, word') == Distance(ts[u].pc, word)
    ensures Distances(ts, word') == Distances(ts, word)
  {
    hide Distance;
    if ts != [] { SameDistances(ts[..|ts| - 1], word, word'); }
  }

  /** The step of `t` from `s` to `s'` completes its instruction or brings it closer. */
  ghost predicate Moves(c: System, s: State, s': State, t: Tid)
    requires t < |s.threads| == |c.progs|
  {
    && |s'.threads| == |s.threads| && s'.threads[t].ip <= |c.progs[t]|
    && if s'.threads[t].ip == s.threads[t].ip then
         && s'.threads == s.threads[t := s'.threads[t]]
         && Distance(s'.threads[t].pc, s'.word) < Distance(s.threads[t].pc, s.word)
         && (s'.word == s.word || HoldsSpin(s.threads[t].pc))
       else
         && s'.threads[t].ip > s.threads[t].ip
         && forall u | 0 <= u < |s.threads| && u != t :: s'.threads[u].ip == s.threads[u].ip
  }

  lemma StepMoves(c: System, s: State, t: Tid, h: Tid)
    requires Inv(c, s) && Enabled(c, s, t, h) && Step(c, s, t, h).Next?
    ensures Moves(c, s, Step(c, s, t, h).state, t)
  {
    hide Disciplined, Depth, Net, Begin, KernelUnlock, Distance;
    assert Local(c, s, t);
    if s.threads[t].pc.Idle? {
      BeginMoves(c, s, t);
    } else if s.threads[t].pc.AskUnlock? {
      UnlockMoves(c, s, t, h);
    } else if HoldsSpin(s.threads[t].pc) {
      KernelMoves(c, s, t, h);
    } else {
      AtInstruction(c.progs[t], c.counted, s.threads[t].ip);
      UserMoves(c, s, t, h);
    }
  }

  lemma BeginMoves(c: System, s: State, t: Tid)
    requires Enabled(c, s, t, t) && s.threads[t].pc.Idle? && Begin(c, s, t).Next?
    ensures Moves(c, s, Begin(c, s, t).state, t)
  {
    hide Step;
  }

  lemma UnlockMoves(c: System, s: State, t: Tid, h: Tid)
    requires Enabled(c, s, t, h) && s.threads[t].pc.AskUnlock? && s.threads[t].ip < |c.progs[t]|
    requires t !in s.blocked && KernelUnlock(s, t, h).Next?
    ensures Moves(c, s, KernelUnlock(s, t, h).state, t)
  {
    hide Step;
  }

  lemma KernelMoves(c: System, s: State, t: Tid, h: Tid)
    requires Enabled(c, s, t, h) && s.threads[t].ip < |c.progs[t]|
    requires HoldsSpin(s.threads[t].pc) && Step(c, s, t, h).Next?
    ensures Moves(c, s, Step(c, s, t, h).state, t)
  {
    hide Begin, KernelUnlock;
  }

  lemma UserMoves(c: System, s: State, t: Tid, h: Tid)
    requires Enabled(c, s, t, h) && s.threads[t].ip < |c.progs[t]| && Step(c, s, t, h).Next?
    requires !HoldsSpin(s.threads[t].pc) && !s.threads[t].pc.Idle? && !s.threads[t].pc.AskUnlock?
    requires s.threads[t].pc.TryGrab? && ReplyAt(c, s, t).OrSkip? ==>
      s.threads[t].ip + 1 + ReplyAt(c, s, t).n <= |c.progs[t]|
    ensures Moves(c, s, Step(c, s, t, h).state, t)
  {
    hide Begin, KernelUnlock;
  }

  lemma RankDrops(c: System, s: State, t: Tid, h: Tid)
    requires Inv(c, s) && Enabled(c, s, t, h) && Step(c, s, t, h).Next?
    ensures |Step(c, s, t, h).state.threads| == |c.progs| && Rank(c, Step(c, s, t, h).state) < Rank(c, s)
  {
    hide Step, Disciplined, Depth, Net, Distance;
    var s' := Step(c, s, t, h).state;
    var k := 12 * |c.progs| + 1;
    StepMoves(c, s, t, h);
    assert Local(c, s, t);
    if s'.threads[t].ip == s.threads[t].ip {
      RemainingAfter(c, s.threads, t, s'.threads[t]);
      forall u | 0 <= u < |s.threads| && u != t
        ensures Distance(s.threads[u].pc, s'.word) == Distance(s.threads[u].pc, s.word)
      {
        assert Local(c, s, u);
        if s'.word != s.word { WordDoesNotMatter(s.threads[u].pc, s.word, s'.word); }
      }
      DistancesAfter(s.threads, t, s'.threads[t], s.word, s'.word);
    } else {
      RemainingAfter(c, s.threads, t, s'.threads[t]);
      SameRemaining(c, s.threads[t := s'.threads[t]], s'.threads);
      Shrink(Remaining(c, s'.threads), Remaining(c, s.threads), k);
    }
  }

  lemma Shrink(r: nat, r': nat, k: nat)
    requires r < r'
    ensures r * k + k <= r' * k
  {
    assert r' * k == (r + 1) * k + (r' - r - 1) * k;
  }

  lemma WordDoesNotMatter(pc: Pc, word: int, word': int)
    requires !HoldsSpin(pc)
    ensures Distance(pc, word') == Distance(pc, word)
  {}

  lemma {:induction false} SameRemaining(c: System, ts: seq<Thread>, ts': seq<Thread>)
    requires |ts| == |ts'| <= |c.progs| && forall u | 0 <= u < |ts| :: ts'[u].ip == ts[u].ip
    ensures Remaining(c, ts) == Remaining(c, ts')
  {
    if ts != [] { SameRemaining(c, ts[..|ts| - 1], ts'[..|ts| - 1]); }
  }

  /** Every entry of the schedule moves a thread. */
  ghost predicate Moving(c: System, s: State, sched: seq<(Tid, Tid)>)
    decreases |sched|
  {
    sched == [] ||
    (Enabled(c, s, sched[0].0, sched[0].1) && Step(c, s, sched[0].0, sched[0].1).Next? &&
     Moving(c, Step(c, s, sched[0].0, sched[0].1).state, sched[1..]))
  }

  /** No livelock either: whatever the scheduler does, the number of steps is bounded. */
  lemma {:induction false} EveryRunIsFinite(c: System, s: State, sched: seq<(Tid, Tid)>)
    requires Inv(c, s) && Moving(c, s, sched)
    ensures |sched| <= Rank(c, s)
    decreases |sched|
  {
    hide Inv, Step, Rank, Enabled;
    SameSize(c, s);
    if sched != [] {
      var (t, h) := sched[0];
      StepKeepsInv(c, s, t, h);
      RankDrops(c, s, t, h);
      EveryRunIsFinite(c, Step(c, s, t, h).state, sched[1..]);
    }
  }

  lemma SameSize(c: System, s: State)
    requires Inv(c, s)
    ensures |s.threads| == |c.progs|
  {}

  /** So from the start every schedule that keeps moving is bounded, and when nobody can move any more
      everybody has finished, with the lock free and memory as it was. */
  lemma EveryRunEnds(c: System, sched: seq<(Tid, Tid)>)
    requires Good(c)
    ensures Moving(c, Start(c), sched) ==> |sched| <= Rank(c, Start(c))
    ensures Run(c, Start(c), sched).Next?
    ensures var s := Run(c, Start(c), sched).state;
      (forall t: Tid, h: Tid :: !Enabled(c, s, t, h)) ==>
        (forall t: Tid | t < |c.progs| :: Finished(c, s, t)) && s.word == FREE && s.shared == 0
  {
    hide Inv, Step, Rank, Enabled, Run, Moving, Finished, Good;
    StartsWell(c);
    SameSize(c, Start(c));
    if Moving(c, Start(c), sched) { EveryRunIsFinite(c, Start(c), sched); }
    RunKeepsInv(c, Start(c), sched);
    var s := Run(c, Start(c), sched).state;
    if forall t: Tid, h: Tid :: !Enabled(c, s, t, h) {
      SameSize(c, s);
      forall u: Tid | u < |c.progs|
        ensures Finished(c, s, u)
      {
        if !Finished(c, s, u) {
          var t, h := SomeoneCanMove(c, s, u);
          assert false;
        }
      }
      EndsFree(c, sched);
    }
  }

  // ---------------------------------------------------------------- the tests

  function Repeat(p: seq<Instr>, n: nat): seq<Instr> {
    if n == 0 then [] else p + Repeat(p, n - 1)
  }

  lemma {:induction false} PrefixSums(p: seq<Instr>, q: seq<Instr>, k: nat)
    requires k <= |p + q|
    ensures Depth(p + q, k) == if k <= |p| then Depth(p, k) else Depth(p, |p|) + Depth(q, k - |p|)
    ensures Net(p + q, k) == if k <= |p| then Net(p, k) else Net(p, |p|) + Net(q, k - |p|)
  {
    if k > 0 { PrefixSums(p, q, k - 1); }
  }

  lemma SequenceIsDisciplined(p: seq<Instr>, q: seq<Instr>, counted: bool)
    requires Disciplined(p, counted) && Disciplined(q, counted)
    ensures Disciplined(p + q, counted)
  {
    hide Depth, Net;
    assert Depth(p, |p|) == 0 && Net(p, |p|) == 0;
    forall k | 0 <= k <= |p + q|
      ensures Depth(p + q, k) == if k <= |p| then Depth(p, k) else Depth(q, k - |p|)
      ensures Net(p + q, k) == if k <= |p| then Net(p, k) else Net(q, k - |p|)
      ensures k == |p| ==> Depth(q, 0) == 0 && Net(q, 0) == 0
    {
      PrefixSums(p, q, k);
      NothingDone(q);
    }
  }

  lemma NothingDone(p: seq<Instr>)
    ensures Depth(p, 0) == 0 && Net(p, 0) == 0
  {}

  lemma {:induction false} RepeatIsDisciplined(p: seq<Instr>, n: nat, counted: bool)
    requires Disciplined(p, counted)
    ensures Disciplined(Repeat(p, n), counted)
  {
    if n > 0 {
      RepeatIsDisciplined(p, n - 1, counted);
      SequenceIsDisciplined(p, Repeat(p, n - 1), counted);
    }
  }

  /** Up to its first unlock, MUTEX0100; what follows is the closing check. */
  const Test0100: seq<Instr> := [Lock, TryLock(AssertRefused), Unlock]

  /** The loop body of mutex0200_child. */
  const Child0200: seq<Instr> := [Lock, Inc, Dec, Unlock]

  /** The loop body of mutex1000_child. */
  const Child1000: seq<Instr> :=
    [Lock, Inc, Lock, Inc, Dec, Unlock, Dec, Unlock, Lock, Inc, TryLock(AssertTaken), Inc, Dec, Unlock, Dec, Unlock]

  /** The tests are such programs, the multithreaded ones for any number of threads and iterations. */
  lemma TestsAreGood(threads: nat, iterations: nat)
    requires threads < TOP - 1
    ensures Good(System(false, [Test0100]))
    ensures Good(System(false, seq(threads, _ => Repeat(Child0200, iterations))))
    ensures Good(System(true, seq(threads, _ => Repeat(Child1000, iterations))))
  {
    hide Disciplined, Repeat;
    LoopBodiesAreDisciplined();
    RepeatIsDisciplined(Child0200, iterations, false);
    RepeatIsDisciplined(Child1000, iterations, true);
  }

  lemma LoopBodiesAreDisciplined()
    ensures Disciplined(Test0100, false) && Disciplined(Child0200, false) && Disciplined(Child1000, true)
  {
    hide Disciplined;
    Tabulate(Test0100, [0, 1, 1, 0], [0, 0, 0, 0], false);
    Tabulate(Child0200, [0, 1, 1, 1, 0], [0, 0, 1, 0, 0], false);
    NestedIsDisciplined(Lock);
    NestedIsDisciplined(TryLock(AssertTaken));
    assert Child1000 == Nested(Lock) + Nested(TryLock(AssertTaken));
    SequenceIsDisciplined(Nested(Lock), Nested(TryLock(AssertTaken)), true);
  }

  function Nested(again: Instr): seq<Instr> {
    [Lock, Inc, again, Inc, Dec, Unlock, Dec, Unlock]
  }

  lemma NestedIsDisciplined(again: Instr)
    requires again == Lock || again == TryLock(AssertTaken)
    ensures Disciplined(Nested(again), true)
  {
    hide Disciplined, Depth, Net;
    Tabulate(Nested(again), [0, 1, 1, 2, 2, 2, 1, 1, 0], [0, 0, 1, 1, 2, 1, 1, 0, 0], true);
  }

  /** A table of depths and net increments, checked entry by entry. */
  lemma Tabulate(p: seq<Instr>, d: seq<int>, n: seq<int>, counted: bool)
    requires |d| == |n| == |p| + 1 && d[0] == 0 && n[0] == 0 && d[|p|] == 0
    requires forall k | 0 <= k < |p| :: d[k + 1] == d[k] + DepthChange(p[k]) && n[k + 1] == n[k] + NetChange(p[k])
    requires forall k | 0 <= k <= |p| :: 0 <= d[k] <= WORDS && (d[k] == 0 ==> n[k] == 0)
    requires forall k | 0 <= k < |p| ::
      if p[k].Lock? then counted || d[k] == 0
      else d[k] > 0 && (p[k].TryLock? ==> p[k].reply == if counted then AssertTaken else AssertRefused)
    ensures Disciplined(p, counted)
  {
    hide Depth, Net;
    forall k | 0 <= k <= |p|
      ensures Depth(p, k) == d[k] && Net(p, k) == n[k]
    {
      TableEntry(p, d, n, k);
    }
  }

  lemma {:induction false} TableEntry(p: seq<Instr>, d: seq<int>, n: seq<int>, k: nat)
    requires |d| == |n| == |p| + 1 && d[0] == 0 && n[0] == 0 && k <= |p|
    requires forall k | 0 <= k < |p| :: d[k + 1] == d[k] + DepthChange(p[k]) && n[k + 1] == n[k] + NetChange(p[k])
    ensures Depth(p, k) == d[k] && Net(p, k) == n[k]
  {
    if k > 0 {
      TableEntry(p, d, n, k - 1);
      assert d[k - 1 + 1] == d[k - 1] + DepthChange(p[k - 1]);
    }
  }
}
