/** The producer/consumer application (app/sem_test1/sem_test1.c): a cyclic
    buffer of n slots, guarded by the semaphores empty, full and m, with any
    number of producers and consumers in any interleaving. The program points
    are named after the source lines; an index update is a load and a store. */
module BoundedBuffer {
  import opened Queues
  import opened Semaphores
  import opened SemaphoreSets
  import Arithmetic

  datatype SemId = Empty | Full | M

  datatype Pc =
    | P14 | P15 | P16 | P17 | P19Load | P19Store | P20 | P21
    | C29 | C30 | C31 | C33Load | C33Store | C34 | C35 | C36

  /** `puts` and `gets` record what has been put into the buffer and taken out
      of it, in order; no step looks at them. */
  datatype State = State(
    n: nat,
    c: Callers<Pc, SemId>,
    reg: seq<int>,
    item: seq<int>,
    buffer: seq<int>,
    inAt: int,
    outAt: int,
    puts: seq<int>,
    gets: seq<int>
  )

  function WaitsOn(pc: Pc): Option<SemId> {
    match pc
    case P15 => Some(Empty)
    case P16 => Some(M)
    case C29 => Some(Full)
    case C30 => Some(M)
    case _ => None
  }

  function PostsTo(pc: Pc): Option<SemId> {
    match pc
    case P20 => Some(M)
    case P21 => Some(Full)
    case C34 => Some(M)
    case C35 => Some(Empty)
    case _ => None
  }

  function Next(pc: Pc): Pc {
    match pc
    case P14 => P15
    case P15 => P16
    case P16 => P17
    case P17 => P19Load
    case P19Load => P19Store
    case P19Store => P20
    case P20 => P21
    case P21 => P14
    case C29 => C30
    case C30 => C31
    case C31 => C33Load
    case C33Load => C33Store
    case C33Store => C34
    case C34 => C35
    case C35 => C36
    case C36 => C29
  }

  ghost predicate Shaped(s: State) {
    && Complete(s.c) && |s.reg| == |s.item| == |s.c.pc|
    && s.n > 0 && |s.buffer| == s.n && 0 <= s.inAt < s.n && 0 <= s.outAt < s.n
  }

  /** The slot after slot x of n. */
  function After(x: int, n: nat): int
    requires n > 0
  {
    (x + 1) % n
  }

  /** Task t, not waiting, executes the statement it is at; v is what random() gives. */
  function Step(s: State, t: nat, v: int): (s': State)
    requires Shaped(s) && t < |s.c.pc|
    ensures Shaped(s')
  {
    var pc := s.c.pc[t];
    var on := s.(c := s.c.(pc := s.c.pc[t := Next(pc)]));
    if WaitsOn(pc).Some? then s.(c := Waited(s.c, t, WaitsOn(pc).value, Next))
    else if PostsTo(pc).Some? then s.(c := Posted(s.c, t, PostsTo(pc).value, Next))
    else match pc
      case P14 => on.(item := s.item[t := v])
      case P17 => on.(buffer := s.buffer[s.inAt := s.item[t]], puts := s.puts + [s.item[t]])
      case P19Load => on.(reg := s.reg[t := s.inAt])
      case P19Store => on.(inAt := After(s.reg[t], s.n))
      case C31 => on.(item := s.item[t := s.buffer[s.outAt]], gets := s.gets + [s.buffer[s.outAt]])
      case C33Load => on.(reg := s.reg[t := s.outAt])
      case C33Store => on.(outAt := After(s.reg[t], s.n))
      case _ => on.(item := s.item[t := 0])     // C36
  }

  // ----- the invariant -----

  /** What a task at a point can have in hand: a token of a semaphore, or an
      index that it has yet to advance. */
  datatype Kind = Token(x: SemId) | PutPending | GetPending

  predicate Has(pc: Pc, k: Kind) {
    match k
    case Token(Empty) => pc in {P16, P17, C33Load, C33Store, C34, C35}
    case Token(Full) => pc in {C30, C31, P19Load, P19Store, P20, P21}
    case Token(M) => pc in {P17, P19Load, P19Store, P20, C31, C33Load, C33Store, C34}
    case PutPending => pc in {P19Load, P19Store}
    case GetPending => pc in {C33Load, C33Store}
  }

  function One(b: bool): int { if b then 1 else 0 }

  /** How many tasks have one. */
  function Total(pc: seq<Pc>, k: Kind): (r: int)
    ensures r >= 0
  {
    if pc == [] then 0 else Total(pc[1..], k) + One(Has(pc[0], k))
  }

  function Positive(c: int): nat { if c > 0 then c else 0 }

  /** The tokens of a semaphore, in the semaphore and in hand. */
  function Tokens(c: Callers<Pc, SemId>, x: SemId): int
    requires x in c.sems
  {
    Positive(c.sems[x].count) + Total(c.pc, Token(x))
  }

  /** How many tokens there should be: as many as slots free, as many as slots
      in use, and one. */
  function Supply(s: State, x: SemId): int {
    match x
    case Empty => s.n - (|s.puts| - |s.gets|)
    case Full => |s.puts| - |s.gets|
    case M => 1
  }

  ghost predicate TokensOk(s: State, x: SemId)
    requires Shaped(s)
  {
    Tokens(s.c, x) == Supply(s, x)
  }

  predicate RegFits(s: State, pc: Pc, reg: int) {
    (pc == P19Store ==> reg == s.inAt) && (pc == C33Store ==> reg == s.outAt)
  }

  /** Slot x of n is that of item number a. */
  predicate Slot(x: int, a: int, n: nat) {
    n > 0 && x == a % n
  }

  ghost predicate InOk(s: State) {
    Slot(s.inAt, |s.puts| - Total(s.c.pc, PutPending), s.n)
  }

  ghost predicate OutOk(s: State) {
    Slot(s.outAt, |s.gets| - Total(s.c.pc, GetPending), s.n)
  }

  /** The indices follow the histories, up to a pending update. */
  ghost predicate IndexOk(s: State)
    requires Shaped(s)
  {
    && InOk(s) && OutOk(s)
    && forall t :: 0 <= t < |s.c.pc| ==> RegFits(s, s.c.pc[t], s.reg[t])
  }

  /** What was taken is a prefix of what was put, and the rest is in the buffer. */
  ghost predicate FifoOk(s: State)
    requires Shaped(s)
  {
    && |s.gets| <= |s.puts| && s.gets == s.puts[..|s.gets|]
    && forall j :: |s.gets| <= j < |s.puts| ==> s.buffer[j % s.n] == s.puts[j]
  }

  ghost predicate Inv(s: State) {
    && Shaped(s) && QueuesOk(s.c, WaitsOn)
    && (forall x :: TokensOk(s, x))
    && IndexOk(s) && FifoOk(s)
  }

  lemma {:induction false} TotalUpdate(pc: seq<Pc>, t: nat, p: Pc, k: Kind)
    requires t < |pc|
    ensures Total(pc[t := p], k) == Total(pc, k) + One(Has(p, k)) - One(Has(pc[t], k))
  {
    if t > 0 {
      TotalUpdate(pc[1..], t - 1, p, k);
      assert pc[t := p][1..] == pc[1..][t - 1 := p];
    } else {
      assert pc[t := p][1..] == pc[1..];
    }
  }

  lemma {:induction false} TotalAtLeast(pc: seq<Pc>, t: nat, u: nat, k: Kind)
    requires t < |pc| && u < |pc| && Has(pc[t], k) && Has(pc[u], k)
    ensures Total(pc, k) >= if t == u then 1 else 2
  {
    TotalUpdate(pc, t, P14, k);
    if t != u {
      TotalUpdate(pc[t := P14], u, P14, k);
    }
  }

  lemma {:induction false} TotalNone(pc: seq<Pc>, k: Kind)
    requires forall t :: 0 <= t < |pc| ==> !Has(pc[t], k)
    ensures Total(pc, k) == 0
  {
    if pc != [] { TotalNone(pc[1..], k); }
  }

  /** Only one task is between passing and posting m. */
  lemma Alone(s: State, t: nat, u: nat)
    requires Shaped(s) && TokensOk(s, M) && t < |s.c.pc| && u < |s.c.pc|
    requires Has(s.c.pc[t], Token(M)) && Has(s.c.pc[u], Token(M))
    ensures t == u
  {
    TotalAtLeast(s.c.pc, t, u, Token(M));
  }

  /** At the slot accesses no index is pending. */
  lemma Settled(s: State, t: nat)
    requires Shaped(s) && TokensOk(s, M) && t < |s.c.pc| && s.c.pc[t] in {P17, C31}
    ensures Total(s.c.pc, PutPending) == Total(s.c.pc, GetPending) == 0
  {
    forall u | 0 <= u < |s.c.pc|
      ensures !Has(s.c.pc[u], PutPending) && !Has(s.c.pc[u], GetPending)
    {
      if Has(s.c.pc[u], Token(M)) { Alone(s, t, u); }
    }
    TotalNone(s.c.pc, PutPending);
    TotalNone(s.c.pc, GetPending);
  }

  lemma NotBetween(k: int, n: int)
    requires n > 0
    ensures k * n <= 0 || n <= k * n
  {
    if k >= 1 {
      Arithmetic.OneMultiple(k, n);
    }
  }

  lemma ModDistinct(i: nat, j: nat, n: nat)
    requires i < j < i + n
    ensures i % n != j % n
  {
    if i % n == j % n {
      var k := j / n - i / n;
      assert j - i == k * n by {
        assert i == i / n * n + i % n && j == j / n * n + j % n;
      }
      NotBetween(k, n);
    }
  }

  // ----- slot accesses -----

  /** A producer at line 17 writes a slot that holds nothing unread. */
  lemma PutIsSafe(s: State, t: nat)
    requires Inv(s) && t < |s.c.pc| && s.c.pc[t] == P17
    ensures s.inAt == |s.puts| % s.n && |s.puts| - |s.gets| < s.n
    ensures forall j :: |s.gets| <= j < |s.puts| ==> j % s.n != s.inAt
  {
    Settled(s, t);
    assert TokensOk(s, Empty);
    TotalAtLeast(s.c.pc, t, t, Token(Empty));
    forall j | |s.gets| <= j < |s.puts|
      ensures j % s.n != s.inAt
    {
      ModDistinct(j, |s.puts|, s.n);
    }
  }

  /** A consumer at line 31 reads the oldest item that was not read. */
  lemma GetIsNext(s: State, t: nat)
    requires Inv(s) && t < |s.c.pc| && s.c.pc[t] == C31
    ensures |s.gets| < |s.puts| && s.buffer[s.outAt] == s.puts[|s.gets|]
  {
    Settled(s, t);
    assert TokensOk(s, Full);
    TotalAtLeast(s.c.pc, t, t, Token(Full));
  }

  // ----- what a step changes -----

  /** What a task gains by moving on from a point. */
  function Gain(p: Pc, k: Kind): int {
    if WaitsOn(p).Some? then One(k == Token(WaitsOn(p).value))
    else if PostsTo(p).Some? then -One(k == Token(PostsTo(p).value))
    else match p
      case P17 => if k == Token(Empty) then -1 else One(k == Token(Full) || k == PutPending)
      case C31 => if k == Token(Full) then -1 else One(k == Token(Empty) || k == GetPending)
      case P19Store => -One(k == PutPending)
      case C33Store => -One(k == GetPending)
      case _ => 0
  }

  lemma GainTable(p: Pc, k: Kind)
    ensures One(Has(Next(p), k)) - One(Has(p, k)) == Gain(p, k)
  {
  }

  predicate Local(pc: Pc) {
    WaitsOn(pc) == None && PostsTo(pc) == None
  }

  lemma LocalTotal(s: State, t: nat, v: int, k: Kind)
    requires Shaped(s) && t < |s.c.pc| && Local(s.c.pc[t])
    ensures Total(Step(s, t, v).c.pc, k) == Total(s.c.pc, k) + Gain(s.c.pc[t], k)
  {
    GainTable(s.c.pc[t], k);
    TotalUpdate(s.c.pc, t, Next(s.c.pc[t]), k);
    hide Gain, Next, Has;
  }

  /** Histories and indices after a statement that touches no semaphore. */
  lemma LocalFields(s: State, t: nat, v: int)
    requires Shaped(s) && t < |s.c.pc| && Local(s.c.pc[t])
    ensures var s', p := Step(s, t, v), s.c.pc[t];
      && Shaped(s') && s'.n == s.n && s'.c == s.c.(pc := s.c.pc[t := Next(p)])
      && s'.puts == (if p == P17 then s.puts + [s.item[t]] else s.puts)
      && s'.gets == (if p == C31 then s.gets + [s.buffer[s.outAt]] else s.gets)
      && s'.buffer == (if p == P17 then s.buffer[s.inAt := s.item[t]] else s.buffer)
      && |s'.puts| == |s.puts| + One(p == P17) && Gain(p, PutPending) == One(p == P17) - One(p == P19Store)
      && |s'.gets| == |s.gets| + One(p == C31) && Gain(p, GetPending) == One(p == C31) - One(p == C33Store)
      && s'.inAt == (if p == P19Store then After(s.reg[t], s.n) else s.inAt)
      && s'.outAt == (if p == C33Store then After(s.reg[t], s.n) else s.outAt)
  {
  }

  lemma LocalTokens(s: State, t: nat, v: int, x: SemId)
    requires Shaped(s) && TokensOk(s, x) && t < |s.c.pc| && Local(s.c.pc[t])
    ensures Shaped(Step(s, t, v)) && TokensOk(Step(s, t, v), x)
  {
    LocalTotal(s, t, v, Token(x));
    LocalFields(s, t, v);
    hide Next, Has, Total, Step, Shaped;
  }

  lemma IndexStep(a: int, a': int, x: int, x': int, n: nat, stored: bool)
    requires n > 0 && Slot(x, a, n) && a' == a + One(stored) && x' == if stored then After(x, n) else x
    ensures Slot(x', a', n)
  {
    Arithmetic.ModSucc(a, n);
  }

  lemma LocalIn(s: State, t: nat, v: int)
    requires Shaped(s) && IndexOk(s) && t < |s.c.pc| && Local(s.c.pc[t])
    ensures InOk(Step(s, t, v))
  {
    LocalTotal(s, t, v, PutPending);
    LocalFields(s, t, v);
    assert RegFits(s, s.c.pc[t], s.reg[t]);
    hide Total, WaitsOn, PostsTo, Next, Gain, Step, Shaped, Local, Slot, After, OutOk;
    var s' := Step(s, t, v);
    IndexStep(|s.puts| - Total(s.c.pc, PutPending), |s'.puts| - Total(s'.c.pc, PutPending), s.inAt, s'.inAt, s.n, s.c.pc[t] == P19Store);
  }

  lemma LocalOut(s: State, t: nat, v: int)
    requires Shaped(s) && IndexOk(s) && t < |s.c.pc| && Local(s.c.pc[t])
    ensures OutOk(Step(s, t, v))
  {
    LocalTotal(s, t, v, GetPending);
    LocalFields(s, t, v);
    assert RegFits(s, s.c.pc[t], s.reg[t]);
    hide Total, WaitsOn, PostsTo, Next, Gain, Step, Shaped, Local, Slot, After, InOk;
    var s' := Step(s, t, v);
    IndexStep(|s.gets| - Total(s.c.pc, GetPending), |s'.gets| - Total(s'.c.pc, GetPending), s.outAt, s'.outAt, s.n, s.c.pc[t] == C33Store);
  }

  lemma LocalReg(s: State, t: nat, v: int, u: nat)
    requires Shaped(s) && TokensOk(s, M) && IndexOk(s) && t < |s.c.pc| && u < |s.c.pc| && Local(s.c.pc[t])
    ensures var s' := Step(s, t, v);
      |s'.c.pc| == |s'.reg| == |s.c.pc| && RegFits(s', s'.c.pc[u], s'.reg[u])
  {
    assert RegFits(s, s.c.pc[u], s.reg[u]);
    if u != t && s.c.pc[t] in {P19Store, C33Store} && s.c.pc[u] in {P19Store, C33Store} {
      Alone(s, t, u);
    }
  }

  lemma LocalIndex(s: State, t: nat, v: int)
    requires Shaped(s) && TokensOk(s, M) && IndexOk(s) && t < |s.c.pc| && Local(s.c.pc[t])
    ensures Shaped(Step(s, t, v)) && IndexOk(Step(s, t, v))
  {
    LocalIn(s, t, v);
    LocalOut(s, t, v);
    forall u | 0 <= u < |s.c.pc|
      ensures var s' := Step(s, t, v); |s'.c.pc| == |s'.reg| == |s.c.pc| && RegFits(s', s'.c.pc[u], s'.reg[u])
    {
      LocalReg(s, t, v, u);
    }
    hide RegFits, Total, Next, WaitsOn, PostsTo, InOk, OutOk, Step;
  }

  lemma LocalFifo(s: State, t: nat, v: int)
    requires Inv(s) && t < |s.c.pc| && Local(s.c.pc[t])
    ensures Shaped(Step(s, t, v)) && FifoOk(Step(s, t, v))
  {
    if s.c.pc[t] == P17 { PutIsSafe(s, t); }
    if s.c.pc[t] == C31 { GetIsNext(s, t); }
    LocalFields(s, t, v);
    hide TokensOk, Total, QueuesOk, IndexOk, Step, Gain, Shaped, Has, Local;
  }

  // ----- semaphore calls -----

  ghost predicate AtWait(s: State, t: nat, x: SemId) {
    Inv(s) && t < |s.c.pc| && !s.c.waiting[t] && WaitsOn(s.c.pc[t]) == Some(x)
  }

  ghost predicate AtPost(s: State, t: nat, x: SemId) {
    Inv(s) && t < |s.c.pc| && !s.c.waiting[t] && PostsTo(s.c.pc[t]) == Some(x)
  }

  /** A hf_semwait gains a token of its semaphore, a hf_sempost gives one back. */
  lemma CallTotal(pc: seq<Pc>, t: nat, x: SemId, y: SemId)
    requires t < |pc| && (WaitsOn(pc[t]) == Some(x) || PostsTo(pc[t]) == Some(x))
    ensures Total(pc[t := Next(pc[t])], Token(y)) ==
      Total(pc, Token(y)) + if x != y then 0 else if WaitsOn(pc[t]) == Some(x) then 1 else -1
    ensures PostsTo(pc[t]) == Some(x) ==> WaitsOn(pc[t]) == None
  {
    GainTable(pc[t], Token(y));
    TotalUpdate(pc, t, Next(pc[t]), Token(y));
    hide Next, Has, Total;
  }

  lemma WaitTokens(c: Callers<Pc, SemId>, t: nat, x: SemId, y: SemId)
    requires QueuesOk(c, WaitsOn) && t < |c.pc| && WaitsOn(c.pc[t]) == Some(x)
    ensures Complete(Waited(c, t, x, Next)) && Tokens(Waited(c, t, x, Next), y) == Tokens(c, y)
  {
    CallTotal(c.pc, t, x, y);
    hide Next, Total, QueuesOk, WaitsOn, PostsTo;
  }

  lemma CallPending(pc: seq<Pc>, t: nat, k: Kind)
    requires t < |pc| && !Local(pc[t]) && !k.Token?
    ensures Total(pc[t := Next(pc[t])], k) == Total(pc, k)
  {
    GainTable(pc[t], k);
    TotalUpdate(pc, t, Next(pc[t]), k);
    hide Next, Has, Total;
  }

  /** Points right after a hf_semwait or a hf_sempost say nothing of `reg`. */
  lemma CallIndex(s: State, c: Callers<Pc, SemId>, t: nat)
    requires Shaped(s) && IndexOk(s) && t < |s.c.pc| && !Local(s.c.pc[t])
    requires Complete(c) && c.pc == s.c.pc[t := Next(s.c.pc[t])]
    ensures IndexOk(s.(c := c))
  {
    CallPending(s.c.pc, t, PutPending);
    CallPending(s.c.pc, t, GetPending);
    hide Total, Has, WaitsOn, PostsTo, Local, Slot;
    forall u | 0 <= u < |c.pc|
      ensures RegFits(s, c.pc[u], s.reg[u])
    {
      assert RegFits(s, s.c.pc[u], s.reg[u]);
    }
  }

  /** A call of hf_semwait, whether the task blocks or gets through. */
  lemma WaitInv(s: State, t: nat, x: SemId)
    requires AtWait(s, t, x)
    ensures Inv(s.(c := Waited(s.c, t, x, Next)))
  {
    WaitKeeps(s.c, t, x, WaitsOn, Next);
    forall y
      ensures TokensOk(s.(c := Waited(s.c, t, x, Next)), y)
    {
      assert TokensOk(s, y);
      WaitTokens(s.c, t, x, y);
    }
    if Blocks(s.c.sems[x]) {
      assert forall u :: 0 <= u < |s.c.pc| ==> RegFits(s, s.c.pc[u], s.reg[u]);
    } else {
      CallIndex(s, Waited(s.c, t, x, Next), t);
    }
    hide TokensOk, QueuesOk, Next, WaitsOn, Total;
  }

  lemma PostTokens(c: Callers<Pc, SemId>, t: nat, x: SemId, y: SemId)
    requires QueuesOk(c, WaitsOn) && t < |c.pc| && !c.waiting[t] && PostsTo(c.pc[t]) == Some(x)
    ensures Complete(Posted(c, t, x, Next)) && Tokens(Posted(c, t, x, Next), y) == Tokens(c, y)
  {
    PostEffect(c, t, x, WaitsOn, Next);
    CallTotal(c.pc, t, x, y);
    if Woken(c.sems[x]).Some? {
      CallTotal(c.pc[t := Next(c.pc[t])], Woken(c.sems[x]).value, x, y);
    }
    hide Next, Total, QueuesOk, Woken, Post, Posted, WaitsOn, PostsTo;
  }

  lemma PostIndex(s: State, t: nat, x: SemId)
    requires AtPost(s, t, x)
    ensures Shaped(s.(c := Posted(s.c, t, x, Next))) && IndexOk(s.(c := Posted(s.c, t, x, Next)))
  {
    PostEffect(s.c, t, x, WaitsOn, Next);
    var c' := Posted(s.c, t, x, Next);
    if Woken(s.c.sems[x]).Some? {
      var c1 := s.c.(pc := s.c.pc[t := Next(s.c.pc[t])]);
      CallIndex(s, c1, t);
      CallIndex(s.(c := c1), c', Woken(s.c.sems[x]).value);
    } else {
      CallIndex(s, c', t);
    }
    hide IndexOk, QueuesOk, Woken, Post, Posted, TokensOk, FifoOk, Next;
  }

  /** A call of hf_sempost, and the task it wakes getting through. */
  lemma PostInv(s: State, t: nat, x: SemId)
    requires AtPost(s, t, x)
    ensures Inv(s.(c := Posted(s.c, t, x, Next)))
  {
    PostKeeps(s.c, t, x, WaitsOn, Next);
    PostIndex(s, t, x);
    forall y
      ensures Shaped(s.(c := Posted(s.c, t, x, Next))) && TokensOk(s.(c := Posted(s.c, t, x, Next)), y)
    {
      assert TokensOk(s, y);
      PostTokens(s.c, t, x, y);
    }
    hide Next, WaitsOn, Woken, Post, PostsTo, TokensOk, IndexOk, QueuesOk, Posted;
  }

  lemma LocalInv(s: State, t: nat, v: int)
    requires Inv(s) && t < |s.c.pc| && !s.c.waiting[t] && Local(s.c.pc[t])
    ensures Inv(Step(s, t, v))
  {
    MoveKeeps(s.c, t, Next(s.c.pc[t]), WaitsOn);
    LocalFields(s, t, v);
    forall x
      ensures Shaped(Step(s, t, v)) && TokensOk(Step(s, t, v), x)
    {
      LocalTokens(s, t, v, x);
    }
    LocalIndex(s, t, v);
    LocalFifo(s, t, v);
    hide QueuesOk, TokensOk, IndexOk, FifoOk, Step, Next, Gain;
  }

  lemma StepInv(s: State, t: nat, v: int)
    requires Inv(s) && t < |s.c.pc| && !s.c.waiting[t]
    ensures Inv(Step(s, t, v))
  {
    var p := s.c.pc[t];
    if WaitsOn(p).Some? {
      WaitInv(s, t, WaitsOn(p).value);
    } else if PostsTo(p).Some? {
      PostInv(s, t, PostsTo(p).value);
    } else {
      LocalInv(s, t, v);
    }
    hide Inv, WaitsOn, PostsTo, Waited, Posted, Next;
  }

  // ----- runs -----

  /** app_main has made the semaphores and spawned the tasks. */
  ghost predicate Start(s: State) {
    && Shaped(s)
    && (forall t :: 0 <= t < |s.c.pc| ==> (s.c.pc[t] == P14 || s.c.pc[t] == C29) && !s.c.waiting[t])
    && s.c.sems[Empty] == Sem(s.n, []) && s.c.sems[Full] == Sem(0, []) && s.c.sems[M] == Sem(1, [])
    && s.inAt == s.outAt == 0 && s.puts == s.gets == []
  }

  lemma StartInv(s: State)
    requires Start(s)
    ensures Inv(s)
  {
    forall k
      ensures Total(s.c.pc, k) == 0
    {
      TotalNone(s.c.pc, k);
    }
    forall x
      ensures QueueOk(s.c, WaitsOn, x) && TokensOk(s, x)
    {
      match x
      case Empty =>
      case Full =>
      case M =>
    }
  }

  /** `who` is the task that takes each step, any that is not waiting; `rand`
      is what random() would give. */
  ghost predicate Run(states: seq<State>, who: seq<nat>, rand: seq<int>) {
    && |states| == |who| + 1 && |who| == |rand|
    && forall i :: 0 <= i < |who| ==>
      && Shaped(states[i]) && who[i] < |states[i].c.pc| && !states[i].c.waiting[who[i]]
      && states[i + 1] == Step(states[i], who[i], rand[i])
  }

  lemma {:induction false} RunInv(states: seq<State>, who: seq<nat>, rand: seq<int>, k: nat)
    requires Run(states, who, rand) && Start(states[0]) && k < |states|
    ensures Inv(states[k])
  {
    hide Inv, Step, Start, Shaped;
    if k == 0 {
      StartInv(states[0]);
    } else {
      RunInv(states, who, rand, k - 1);
      StepInv(states[k - 1], who[k - 1], rand[k - 1]);
    }
  }

  /** In every reachable state what was taken is a prefix of what was put, at
      most n items are in the buffer, a put hits no unread slot, a get reads
      the oldest unread item, and only one task is inside m. */
  lemma BoundedBufferFifo(states: seq<State>, who: seq<nat>, rand: seq<int>, k: nat)
    requires Run(states, who, rand) && Start(states[0]) && k < |states|
    ensures var s := states[k];
      && Shaped(s)
      && |s.gets| <= |s.puts| <= |s.gets| + s.n && s.gets == s.puts[..|s.gets|]
      && (forall t :: 0 <= t < |s.c.pc| && s.c.pc[t] == P17 ==> forall j :: |s.gets| <= j < |s.puts| ==> j % s.n != s.inAt)
      && (forall t :: 0 <= t < |s.c.pc| && s.c.pc[t] == C31 ==> |s.gets| < |s.puts| && s.buffer[s.outAt] == s.puts[|s.gets|])
      && (forall t, u :: 0 <= t < |s.c.pc| && 0 <= u < |s.c.pc| && Has(s.c.pc[t], Token(M)) && Has(s.c.pc[u], Token(M)) ==> t == u)
      && forall x :: !PostPanics(s.c.sems[x])
  {
    RunInv(states, who, rand, k);
    var s := states[k];
    assert TokensOk(s, Empty) && TokensOk(s, M);
    forall t | 0 <= t < |s.c.pc| && s.c.pc[t] == P17
      ensures forall j :: |s.gets| <= j < |s.puts| ==> j % s.n != s.inAt
    {
      PutIsSafe(s, t);
    }
    forall t | 0 <= t < |s.c.pc| && s.c.pc[t] == C31
      ensures |s.gets| < |s.puts| && s.buffer[s.outAt] == s.puts[|s.gets|]
    {
      GetIsNext(s, t);
    }
    forall t, u | 0 <= t < |s.c.pc| && 0 <= u < |s.c.pc| && Has(s.c.pc[t], Token(M)) && Has(s.c.pc[u], Token(M))
      ensures t == u
    {
      Alone(s, t, u);
    }
    forall x
      ensures !PostPanics(s.c.sems[x])
    {
      assert QueueOk(s.c, WaitsOn, x);
    }
  }

  predicate Produces(pc: Pc) {
    pc in {P14, P15, P16, P17, P19Load, P19Store, P20, P21}
  }

  /** Producers and consumers never all wait for each other. */
  lemma NoDeadlock(s: State, p: nat, c: nat)
    requires Inv(s) && p < |s.c.pc| && c < |s.c.pc| && Produces(s.c.pc[p]) && !Produces(s.c.pc[c])
    ensures exists t :: 0 <= t < |s.c.pc| && !s.c.waiting[t]
  {
    assert QueueOk(s.c, WaitsOn, M) && QueueOk(s.c, WaitsOn, Empty) && QueueOk(s.c, WaitsOn, Full);
    assert p in s.c.sems[Empty].queue <==> s.c.waiting[p] && s.c.pc[p] == P15;
    assert c in s.c.sems[Full].queue <==> s.c.waiting[c] && s.c.pc[c] == C29;
    if forall t :: 0 <= t < |s.c.pc| ==> s.c.waiting[t] {
      assert TokensOk(s, M) && TokensOk(s, Empty) && TokensOk(s, Full);
      TotalNone(s.c.pc, Token(M));
      assert forall t :: 0 <= t < |s.c.pc| ==> s.c.pc[t] == P15 || s.c.pc[t] == C29;
      TotalNone(s.c.pc, Token(Empty));
      TotalNone(s.c.pc, Token(Full));
    }
  }
}
