/** The readers-writers application (app/readers_writers/readers_writers.c) as a
    step system over its five semaphores: any number of readers and writers,
    any interleaving, and the counters rc and wc updated by a separate load and
    store. The program points are named after the source lines. */
module ReadersWriters {
  import opened Queues
  import opened Semaphores
  import opened SemaphoreSets

  datatype SemId = Mtx | RDb | MtxRc | WDb | MtxWc

  datatype Pc =
    // reader
    | R14 | R15 | R16 | R17Load | R17Store | R18Test | R18Wait | R19 | R20 | R21
    | Reading | R24 | R25Load | R25Store | R26Test | R26Post | R27
    // writer
    | W37 | W38Load | W38Store | W39Test | W39Wait | W40 | W42
    | Writing | W45 | W46 | W47Load | W47Store | W48Test | W48Post | W49

  /** Who holds w_db: one writer, or the readers together. */
  datatype Holder = Nobody | Writer(t: nat) | Readers

  /** `rcOwner` and `dbHolder` record who holds mtx_rc and w_db; no step looks
      at them. */
  datatype State = State(
    c: Callers<Pc, SemId>,
    reg: seq<int>,
    rc: int,
    wc: int,
    rcOwner: Option<nat>,
    dbHolder: Holder
  )

  /** The semaphore of a hf_semwait at this point. */
  function WaitsOn(pc: Pc): Option<SemId> {
    match pc
    case R14 => Some(Mtx)
    case R15 => Some(RDb)
    case R16 => Some(MtxRc)
    case R18Wait => Some(WDb)
    case R24 => Some(MtxRc)
    case W37 => Some(MtxWc)
    case W39Wait => Some(RDb)
    case W42 => Some(WDb)
    case W46 => Some(MtxWc)
    case _ => None
  }

  /** The semaphore of a hf_sempost at this point. */
  function PostsTo(pc: Pc): Option<SemId> {
    match pc
    case R19 => Some(MtxRc)
    case R20 => Some(RDb)
    case R21 => Some(Mtx)
    case R26Post => Some(WDb)
    case R27 => Some(MtxRc)
    case W40 => Some(MtxWc)
    case W45 => Some(WDb)
    case W48Post => Some(RDb)
    case W49 => Some(MtxWc)
    case _ => None
  }

  /** The point after this one; for the tests, when the condition is false. */
  function Next(pc: Pc): Pc {
    match pc
    case R14 => R15
    case R15 => R16
    case R16 => R17Load
    case R17Load => R17Store
    case R17Store => R18Test
    case R18Test => R19
    case R18Wait => R19
    case R19 => R20
    case R20 => R21
    case R21 => Reading
    case Reading => R24
    case R24 => R25Load
    case R25Load => R25Store
    case R25Store => R26Test
    case R26Test => R27
    case R26Post => R27
    case R27 => R14
    case W37 => W38Load
    case W38Load => W38Store
    case W38Store => W39Test
    case W39Test => W40
    case W39Wait => W40
    case W40 => W42
    case W42 => Writing
    case Writing => W45
    case W45 => W46
    case W46 => W47Load
    case W47Load => W47Store
    case W47Store => W48Test
    case W48Test => W49
    case W48Post => W49
    case W49 => W37
  }

  ghost predicate Shaped(s: State) {
    Complete(s.c) && |s.reg| == |s.c.pc|
  }

  /** Task t has got past the hf_semwait at p. */
  function Took(s: State, t: nat, p: Pc): State {
    match WaitsOn(p)
    case Some(MtxRc) => s.(rcOwner := Some(t))
    case Some(WDb) => s.(dbHolder := if p == W42 then Writer(t) else Readers)
    case _ => s
  }

  function DoWait(s: State, t: nat, x: SemId): State
    requires |s.c.pc| == |s.c.waiting| && t < |s.c.pc| && x in s.c.sems
  {
    var s1 := s.(c := Waited(s.c, t, x, Next));
    if Blocks(s.c.sems[x]) then s1 else Took(s1, t, s.c.pc[t])
  }

  function Released(s: State, x: SemId): State {
    match x
    case MtxRc => s.(rcOwner := None)
    case WDb => s.(dbHolder := Nobody)
    case _ => s
  }

  function DoPost(s: State, t: nat, x: SemId): State
    requires |s.c.pc| == |s.c.waiting| && t < |s.c.pc| && x in s.c.sems
  {
    var s1 := Released(s.(c := Posted(s.c, t, x, Next)), x);
    var w := Woken(s.c.sems[x]);
    if w.Some? && w.value < |s.c.pc| then Took(s1, w.value, s.c.pc[w.value]) else s1
  }

  /** Task t goes on at p. */
  function At(s: State, t: nat, p: Pc): State
    requires t < |s.c.pc|
  {
    s.(c := s.c.(pc := s.c.pc[t := p]))
  }

  /** Task t, not waiting, executes the statement it is at. */
  function Step(s: State, t: nat): (s': State)
    requires Shaped(s) && t < |s.c.pc|
    ensures Shaped(s')
  {
    var pc := s.c.pc[t];
    var on := At(s, t, Next(pc));
    if WaitsOn(pc).Some? then DoWait(s, t, WaitsOn(pc).value)
    else if PostsTo(pc).Some? then DoPost(s, t, PostsTo(pc).value)
    else match pc
      case R17Load => on.(reg := s.reg[t := s.rc])
      case R17Store => on.(rc := s.reg[t] + 1)
      case R18Test => if s.rc == 1 then At(s, t, R18Wait) else on
      case R25Load => on.(reg := s.reg[t := s.rc])
      case R25Store => on.(rc := s.reg[t] - 1)
      case R26Test => if s.rc == 0 then At(s, t, R26Post) else on
      case W38Load => on.(reg := s.reg[t := s.wc])
      case W38Store => on.(wc := s.reg[t] + 1)
      case W39Test => if s.wc == 1 then At(s, t, W39Wait) else on
      case W47Load => on.(reg := s.reg[t := s.wc])
      case W47Store => on.(wc := s.reg[t] - 1)
      case W48Test => if s.wc == 0 then At(s, t, W48Post) else on
      case _ => on
  }

  // ----- the invariant -----

  /** Points between passing and posting mtx_rc. */
  predicate HoldsRc(pc: Pc) {
    pc in {R17Load, R17Store, R18Test, R18Wait, R19, R25Load, R25Store, R26Test, R26Post, R27}
  }

  /** Readers that rc counts. */
  predicate Counted(pc: Pc) {
    pc in {R18Test, R18Wait, R19, R20, R21, Reading, R24, R25Load, R25Store}
  }

  function CountedTotal(pc: seq<Pc>): nat {
    if pc == [] then 0 else CountedTotal(pc[1..]) + if Counted(pc[0]) then 1 else 0
  }

  predicate HoldsDb(pc: Pc) {
    pc in {Writing, W45}
  }

  /** Do the readers hold w_db, seen from rc and from the point of the owner of
      mtx_rc? */
  predicate ReadersHold(s: State) {
    if s.rcOwner.Some? && s.rcOwner.value < |s.c.pc| then HoldAt(s.c.pc[s.rcOwner.value], s.rc) else s.rc > 0
  }

  predicate HoldAt(pc: Pc, rc: int) {
    match pc
    case R18Test => rc > 1
    case R18Wait => false
    case R26Test => true
    case R26Post => true
    case _ => rc > 0
  }

  ghost predicate RcOk(s: State)
    requires Shaped(s)
  {
    && (forall t :: 0 <= t < |s.c.pc| ==> (HoldsRc(s.c.pc[t]) <==> s.rcOwner == Some(t)))
    && s.c.sems[MtxRc].count <= 1 && (s.c.sems[MtxRc].count == 1 <==> s.rcOwner == None)
    && (s.rcOwner.Some? ==> s.rcOwner.value < |s.c.pc|)
  }

  ghost predicate DbOk(s: State)
    requires Shaped(s)
  {
    && (forall t :: 0 <= t < |s.c.pc| ==> (HoldsDb(s.c.pc[t]) <==> s.dbHolder == Writer(t)))
    && s.c.sems[WDb].count <= 1 && (s.c.sems[WDb].count == 1 <==> s.dbHolder == Nobody)
    && (s.dbHolder.Writer? ==> s.dbHolder.t < |s.c.pc|)
    && (s.dbHolder == Readers <==> ReadersHold(s))
  }

  /** What the point of a task says about rc. */
  predicate RcFits(pc: Pc, reg: int, rc: int) {
    match pc
    case R17Store => reg == rc
    case R25Store => reg == rc
    case R18Wait => rc == 1
    case R26Post => rc == 0
    case _ => true
  }

  ghost predicate CountOk(s: State)
    requires Shaped(s)
  {
    && s.rc == CountedTotal(s.c.pc)
    && forall t :: 0 <= t < |s.c.pc| ==> RcFits(s.c.pc[t], s.reg[t], s.rc)
  }

  ghost predicate Inv(s: State) {
    Shaped(s) && QueuesOk(s.c, WaitsOn) && RcOk(s) && DbOk(s) && CountOk(s)
  }

  /** At most one writer writes, and no reader reads meanwhile. */
  ghost predicate Safe(s: State) {
    forall t, u :: 0 <= t < |s.c.pc| && 0 <= u < |s.c.pc| && s.c.pc[t] == Writing && t != u ==>
      s.c.pc[u] != Writing && s.c.pc[u] != Reading
  }

  lemma {:induction false} CountedUpdate(pc: seq<Pc>, t: nat, p: Pc)
    requires t < |pc|
    ensures CountedTotal(pc[t := p]) == CountedTotal(pc) + (if Counted(p) then 1 else 0) - (if Counted(pc[t]) then 1 else 0)
  {
    if t > 0 {
      CountedUpdate(pc[1..], t - 1, p);
      assert pc[t := p][1..] == pc[1..][t - 1 := p];
    } else {
      assert pc[t := p][1..] == pc[1..];
    }
  }

  lemma {:induction false} CountedAtLeast(pc: seq<Pc>, t: nat, u: nat)
    requires t < |pc| && u < |pc| && Counted(pc[t]) && Counted(pc[u])
    ensures CountedTotal(pc) >= if t == u then 1 else 2
  {
    CountedUpdate(pc, t, R14);
    if t != u {
      CountedUpdate(pc[t := R14], u, R14);
    }
  }

  lemma InvSafe(s: State)
    requires Inv(s)
    ensures Safe(s)
  {
    forall t, u | 0 <= t < |s.c.pc| && 0 <= u < |s.c.pc| && s.c.pc[t] == Writing && t != u
      ensures s.c.pc[u] != Writing && s.c.pc[u] != Reading
    {
      assert s.dbHolder == Writer(t);
      if Counted(s.c.pc[u]) {
        CountedAtLeast(s.c.pc, u, u);
        if s.rcOwner.Some? {
          var o := s.rcOwner.value;
          if Counted(s.c.pc[o]) {
            CountedAtLeast(s.c.pc, u, o);
          }
        }
      }
    }
  }

  // ----- statements that touch no semaphore -----

  predicate Local(pc: Pc) {
    WaitsOn(pc) == None && PostsTo(pc) == None
  }

  lemma Unconcerned(pc: Pc, reg: int, rc: int)
    requires !HoldsRc(pc)
    ensures RcFits(pc, reg, rc)
  {
  }

  /** rc changes only by a store at R17Store or R25Store, to what the new point counts. */
  lemma LocalTable(s: State, t: nat)
    requires Shaped(s) && t < |s.c.pc| && Local(s.c.pc[t]) && RcFits(s.c.pc[t], s.reg[t], s.rc)
    ensures |Step(s, t).c.pc| == |s.c.pc| && Step(s, t).c == s.c.(pc := s.c.pc[t := Step(s, t).c.pc[t]])
    ensures |Step(s, t).reg| == |s.reg| && Step(s, t).reg == s.reg[t := Step(s, t).reg[t]]
    ensures Step(s, t).rc - s.rc == (if Counted(Step(s, t).c.pc[t]) then 1 else 0) - (if Counted(s.c.pc[t]) then 1 else 0)
    ensures Step(s, t).rc != s.rc ==> HoldsRc(s.c.pc[t])
    ensures RcFits(Step(s, t).c.pc[t], Step(s, t).reg[t], Step(s, t).rc)
    ensures HoldsDb(Step(s, t).c.pc[t]) == HoldsDb(s.c.pc[t])
    ensures s.rc >= 0 && (Counted(s.c.pc[t]) ==> s.rc > 0) && HoldsRc(s.c.pc[t]) ==>
      HoldAt(Step(s, t).c.pc[t], Step(s, t).rc) == HoldAt(s.c.pc[t], s.rc)
    ensures HoldsRc(Step(s, t).c.pc[t]) == HoldsRc(s.c.pc[t])
    ensures Step(s, t).rcOwner == s.rcOwner && Step(s, t).dbHolder == s.dbHolder
  {
  }

  lemma LocalRc(s: State, t: nat)
    requires Shaped(s) && RcOk(s) && CountOk(s) && t < |s.c.pc| && Local(s.c.pc[t])
    ensures RcOk(Step(s, t))
  {
    hide Step, Local, HoldsRc, RcFits, Counted, HoldAt, HoldsDb;
    LocalTable(s, t);
  }

  lemma LocalCount(s: State, t: nat)
    requires Shaped(s) && RcOk(s) && CountOk(s) && t < |s.c.pc| && Local(s.c.pc[t])
    ensures CountOk(Step(s, t))
  {
    hide Step, Local, HoldsRc, RcFits, Counted;
    var s' := Step(s, t);
    LocalTable(s, t);
    CountedUpdate(s.c.pc, t, s'.c.pc[t]);
    forall u | 0 <= u < |s.c.pc|
      ensures RcFits(s'.c.pc[u], s'.reg[u], s'.rc)
    {
      if u != t && s'.rc != s.rc {
        Unconcerned(s.c.pc[u], s.reg[u], s'.rc);
      }
    }
  }

  lemma LocalDb(s: State, t: nat)
    requires Shaped(s) && RcOk(s) && CountOk(s) && DbOk(s) && t < |s.c.pc| && Local(s.c.pc[t])
    ensures DbOk(Step(s, t))
  {
    hide Step, Local, HoldsRc, RcFits, Counted, HoldAt, HoldsDb;
    var s' := Step(s, t);
    LocalTable(s, t);
    if Counted(s.c.pc[t]) { CountedAtLeast(s.c.pc, t, t); }
    assert ReadersHold(s') == ReadersHold(s);
  }

  lemma LocalInv(s: State, t: nat)
    requires Inv(s) && t < |s.c.pc| && !s.c.waiting[t] && Local(s.c.pc[t])
    ensures Inv(Step(s, t))
  {
    LocalRc(s, t);
    LocalCount(s, t);
    LocalDb(s, t);
    assert RcFits(s.c.pc[t], s.reg[t], s.rc);
    LocalTable(s, t);
    MoveKeeps(s.c, t, Step(s, t).c.pc[t], WaitsOn);
    hide Step, Local, HoldsRc, RcFits, Counted, HoldAt, HoldsDb, QueuesOk, RcOk, DbOk, CountOk;
  }

  // ----- semaphore calls -----

  lemma PassTable(p: Pc, reg: int, rc: int)
    requires WaitsOn(p).Some?
    ensures HoldsRc(Next(p)) <==> HoldsRc(p) || WaitsOn(p) == Some(MtxRc)
    ensures WaitsOn(p) == Some(MtxRc) ==> !HoldsRc(p)
    ensures Counted(Next(p)) == Counted(p)
    ensures !HoldsDb(p) && (HoldsDb(Next(p)) <==> p == W42)
    ensures RcFits(Next(p), reg, rc)
    ensures WaitsOn(p) == Some(WDb) <==> p == W42 || p == R18Wait
    ensures p == R18Wait ==> HoldsRc(p) && (RcFits(p, reg, rc) ==> rc == 1)
    ensures HoldsRc(p) ==> p == R18Wait
    ensures HoldAt(Next(p), rc) <==> rc > 0
    ensures HoldAt(p, rc) <==> rc > 0 && p != R18Wait
  {
  }

  lemma PostTable(p: Pc, reg: int, rc: int)
    requires PostsTo(p).Some?
    ensures WaitsOn(p) == None
    ensures HoldsRc(p) <==> PostsTo(p) == Some(MtxRc) || p == R26Post
    ensures HoldsRc(Next(p)) <==> p == R26Post
    ensures Counted(Next(p)) == Counted(p)
    ensures (HoldsDb(p) <==> p == W45) && !HoldsDb(Next(p))
    ensures RcFits(Next(p), reg, rc)
    ensures PostsTo(p) == Some(WDb) <==> p == W45 || p == R26Post
    ensures p == R26Post ==> (RcFits(p, reg, rc) ==> rc == 0) && HoldAt(p, rc)
    ensures p != R26Post ==> (HoldAt(p, rc) <==> rc > 0)
    ensures HoldAt(Next(p), rc) <==> rc > 0
  {
  }

  ghost predicate AtWait(s: State, t: nat, x: SemId) {
    Inv(s) && t < |s.c.pc| && !s.c.waiting[t] && WaitsOn(s.c.pc[t]) == Some(x)
  }

  ghost predicate AtPost(s: State, t: nat, x: SemId) {
    Inv(s) && t < |s.c.pc| && !s.c.waiting[t] && PostsTo(s.c.pc[t]) == Some(x)
  }

  /** A task that blocks in hf_semwait. */
  lemma BlockInv(s: State, t: nat, x: SemId)
    requires AtWait(s, t, x) && Blocks(s.c.sems[x])
    ensures Inv(DoWait(s, t, x))
  {
    WaitKeeps(s.c, t, x, WaitsOn, Next);
    assert ReadersHold(DoWait(s, t, x)) == ReadersHold(s);
    hide HoldsRc, RcFits, HoldAt, HoldsDb, WaitsOn, CountedTotal, QueuesOk;
  }

  lemma PassRc(s: State, t: nat, x: SemId)
    requires AtWait(s, t, x) && !Blocks(s.c.sems[x])
    ensures RcOk(DoWait(s, t, x))
  {
    hide Next, HoldsRc, RcFits, Counted, HoldAt, HoldsDb, WaitsOn, CountedTotal, QueuesOk, DbOk, CountOk;
    PassTable(s.c.pc[t], s.reg[t], s.rc);
  }

  lemma PassDb(s: State, t: nat, x: SemId)
    requires AtWait(s, t, x) && !Blocks(s.c.sems[x])
    ensures DbOk(DoWait(s, t, x))
  {
    assert RcFits(s.c.pc[t], s.reg[t], s.rc);
    PassTable(s.c.pc[t], s.reg[t], s.rc);
    hide Next, HoldsRc, RcFits, Counted, HoldAt, HoldsDb, WaitsOn, CountedTotal, QueuesOk, CountOk;
  }

  /** A task that gets through hf_semwait at once. */
  lemma PassInv(s: State, t: nat, x: SemId)
    requires AtWait(s, t, x) && !Blocks(s.c.sems[x])
    ensures Inv(DoWait(s, t, x))
  {
    WaitKeeps(s.c, t, x, WaitsOn, Next);
    PassRc(s, t, x);
    PassDb(s, t, x);
    PassTable(s.c.pc[t], s.reg[t], s.rc);
    CountedUpdate(s.c.pc, t, Next(s.c.pc[t]));
    hide Next, HoldsRc, RcFits, Counted, HoldAt, HoldsDb, WaitsOn, CountedTotal, QueuesOk, RcOk, DbOk;
  }

  /** The state after a hf_sempost, field by field. */
  lemma PostFields(s: State, t: nat, x: SemId)
    requires AtPost(s, t, x)
    ensures Shaped(DoPost(s, t, x)) && DoPost(s, t, x).rc == s.rc && DoPost(s, t, x).reg == s.reg
    ensures DoPost(s, t, x).c == Posted(s.c, t, x, Next)
    ensures DoPost(s, t, x).c.sems == s.c.sems[x := Sem(s.c.sems[x].count + 1, Post(s.c.sems[x]).queue)]
    ensures Woken(s.c.sems[x]).None? ==> DoPost(s, t, x).c.pc == s.c.pc[t := Next(s.c.pc[t])] && s.c.sems[x].count >= 0
    ensures Woken(s.c.sems[x]).None? ==> DoPost(s, t, x).rcOwner == if x == MtxRc then None else s.rcOwner
    ensures Woken(s.c.sems[x]).None? ==> DoPost(s, t, x).dbHolder == if x == WDb then Nobody else s.dbHolder
    ensures Woken(s.c.sems[x]).Some? ==>
      var w := Woken(s.c.sems[x]).value;
      && w < |s.c.pc| && w != t && WaitsOn(s.c.pc[w]) == Some(x) && s.c.sems[x].count < 0
      && DoPost(s, t, x).c.pc == s.c.pc[t := Next(s.c.pc[t])][w := Next(s.c.pc[w])]
      && DoPost(s, t, x).rcOwner == (if x == MtxRc then Some(w) else s.rcOwner)
      && DoPost(s, t, x).dbHolder == if x != WDb then s.dbHolder else if s.c.pc[w] == W42 then Writer(w) else Readers
    ensures HoldsRc(s.c.pc[t]) ==> s.rcOwner == Some(t)
  {
    PostEffect(s.c, t, x, WaitsOn, Next);
    hide Next, Woken, Post, Posted, HoldsRc, PostsTo, QueuesOk, CountOk, DbOk;
  }

  lemma PostCount(s: State, t: nat, x: SemId)
    requires AtPost(s, t, x)
    ensures CountOk(DoPost(s, t, x))
  {
    PostFields(s, t, x);
    hide Next, HoldsRc, RcFits, Counted, HoldAt, HoldsDb, WaitsOn, PostsTo, CountedTotal, QueuesOk, Woken, DbOk, RcOk, DoPost;
    PostTable(s.c.pc[t], s.reg[t], s.rc);
    CountedUpdate(s.c.pc, t, Next(s.c.pc[t]));
    if Woken(s.c.sems[x]).Some? {
      var w := Woken(s.c.sems[x]).value;
      PassTable(s.c.pc[w], s.reg[w], s.rc);
      CountedUpdate(s.c.pc[t := Next(s.c.pc[t])], w, Next(s.c.pc[w]));
    }
  }

  lemma PostRc(s: State, t: nat, x: SemId)
    requires AtPost(s, t, x)
    ensures RcOk(DoPost(s, t, x))
  {
    PostFields(s, t, x);
    PostTable(s.c.pc[t], s.reg[t], s.rc);
    hide Next, HoldsRc, RcFits, Counted, HoldAt, HoldsDb, WaitsOn, PostsTo, CountedTotal, QueuesOk, Woken, DbOk, CountOk, DoPost, Posted;
    if Woken(s.c.sems[x]).Some? {
      PassTable(s.c.pc[Woken(s.c.sems[x]).value], 0, s.rc);
    }
  }

  lemma PostDbAlone(s: State, t: nat, x: SemId)
    requires AtPost(s, t, x) && Woken(s.c.sems[x]).None?
    ensures DbOk(DoPost(s, t, x))
  {
    PostFields(s, t, x);
    PostTable(s.c.pc[t], s.reg[t], s.rc);
    hide Next, HoldsRc, RcFits, Counted, HoldAt, HoldsDb, WaitsOn, PostsTo, CountedTotal, QueuesOk, Woken, DoPost, Posted;
    assert RcFits(s.c.pc[t], s.reg[t], s.rc);
  }

  lemma PostDbWakes(s: State, t: nat, x: SemId)
    requires AtPost(s, t, x) && Woken(s.c.sems[x]).Some?
    ensures DbOk(DoPost(s, t, x))
  {
    PostFields(s, t, x);
    PostTable(s.c.pc[t], s.reg[t], s.rc);
    hide Next, HoldsRc, RcFits, Counted, HoldAt, HoldsDb, WaitsOn, PostsTo, CountedTotal, QueuesOk, Woken, DoPost, Posted;
    var w := Woken(s.c.sems[x]).value;
    assert RcFits(s.c.pc[t], s.reg[t], s.rc);
    assert RcFits(s.c.pc[w], s.reg[w], s.rc);
    PassTable(s.c.pc[w], s.reg[w], s.rc);
  }

  lemma PostDb(s: State, t: nat, x: SemId)
    requires AtPost(s, t, x)
    ensures DbOk(DoPost(s, t, x))
  {
    PostFields(s, t, x);
    if Woken(s.c.sems[x]).Some? { PostDbWakes(s, t, x); } else { PostDbAlone(s, t, x); }
  }

  /** A call of hf_sempost, and the task it wakes getting through. */
  lemma PostInv(s: State, t: nat, x: SemId)
    requires AtPost(s, t, x)
    ensures Inv(DoPost(s, t, x))
  {
    PostFields(s, t, x);
    PostKeeps(s.c, t, x, WaitsOn, Next);
    PostRc(s, t, x);
    PostCount(s, t, x);
    PostDb(s, t, x);
    hide QueuesOk, RcOk, DbOk, CountOk, DoPost, Posted;
  }

  lemma StepInv(s: State, t: nat)
    requires Inv(s) && t < |s.c.pc| && !s.c.waiting[t]
    ensures Inv(Step(s, t))
  {
    var p := s.c.pc[t];
    if WaitsOn(p).Some? {
      if Blocks(s.c.sems[WaitsOn(p).value]) {
        BlockInv(s, t, WaitsOn(p).value);
      } else {
        PassInv(s, t, WaitsOn(p).value);
      }
    } else if PostsTo(p).Some? {
      PostInv(s, t, PostsTo(p).value);
    } else {
      LocalInv(s, t);
    }
    hide Inv, WaitsOn, PostsTo, DoWait, DoPost;
  }

  // ----- runs -----

  /** app_main has made the semaphores and spawned the tasks, each a reader at
      its first statement or a writer at its first. */
  ghost predicate Start(s: State) {
    && Shaped(s)
    && (forall t :: 0 <= t < |s.c.pc| ==> (s.c.pc[t] == R14 || s.c.pc[t] == W37) && !s.c.waiting[t])
    && (forall x :: s.c.sems[x] == Sem(1, []))
    && s.rc == s.wc == 0 && s.rcOwner == None && s.dbHolder == Nobody
  }

  lemma {:induction false} NoneCounted(pc: seq<Pc>)
    requires forall t :: 0 <= t < |pc| ==> pc[t] == R14 || pc[t] == W37
    ensures CountedTotal(pc) == 0
  {
    if pc != [] { NoneCounted(pc[1..]); }
  }

  lemma StartInv(s: State)
    requires Start(s)
    ensures Inv(s)
  {
    NoneCounted(s.c.pc);
    forall x
      ensures QueueOk(s.c, WaitsOn, x)
    {
      assert s.c.sems[x] == Sem(1, []);
    }
  }

  /** `who` is the task that takes each step: any that is not waiting. */
  ghost predicate Run(states: seq<State>, who: seq<nat>) {
    && |states| == |who| + 1
    && forall i :: 0 <= i < |who| ==>
      && Shaped(states[i]) && who[i] < |states[i].c.pc| && !states[i].c.waiting[who[i]]
      && states[i + 1] == Step(states[i], who[i])
  }

  lemma {:induction false} RunInv(states: seq<State>, who: seq<nat>, k: nat)
    requires Run(states, who) && Start(states[0]) && k < |states|
    ensures Inv(states[k])
  {
    hide Inv, Step, Start, Shaped;
    if k == 0 {
      StartInv(states[0]);
    } else {
      RunInv(states, who, k - 1);
      StepInv(states[k - 1], who[k - 1]);
    }
  }

  /** In every reachable state, for any number of readers and writers and any
      schedule: a writer writes alone, and no hf_sempost panics. */
  lemma ReadersWritersSafe(states: seq<State>, who: seq<nat>, k: nat)
    requires Run(states, who) && Start(states[0]) && k < |states|
    ensures Safe(states[k])
    ensures Shaped(states[k]) && forall x :: !PostPanics(states[k].c.sems[x])
  {
    RunInv(states, who, k);
    InvSafe(states[k]);
    forall x
      ensures !PostPanics(states[k].c.sems[x])
    {
      assert QueueOk(states[k].c, WaitsOn, x);
    }
  }
}
