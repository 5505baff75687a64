/** The threaded shop: any number of buyers and kiosks, one worker who restocks, and every
    interleaving of their steps. */
module Shop {

  const DELIVERY := 200

  datatype Holder = Nobody | Buyer(b: nat) | Worker

  datatype Kiosk = Kiosk(goods: int, holder: Holder)

  datatype BuyerPc =
    | Outside           // about to test whether anything is still needed
    | Trying(i: nat)    // about to try kiosk i
    | Inside(i: nat)    // holds kiosk i
    | Satisfied         // left the loop, has not taken the done mutex
    | Counting          // holds the done mutex, not yet counted
    | Counted           // holds the done mutex, counted
    | Gone

  datatype BuyerState = BuyerState(pc: BuyerPc, need: int, bought: nat)

  datatype WorkerPc =
    | Choosing
    | Unloading(i: nat)  // holds kiosk i, goods not yet added
    | Leaving(i: nat)    // holds kiosk i, goods added
    | Resting
    | Checking           // holds the done mutex
    | Left               // out of the loop by its own test

  datatype DoneHolder = Free | ByBuyer(b: nat) | ByWorker

  datatype State = State(
    kiosks: seq<Kiosk>, buyers: seq<BuyerState>, worker: WorkerPc,
    done: nat, doneMutex: DoneHolder, deliveries: nat)

  datatype Step =
    | TestNeed(b: nat) | TryKiosk(b: nat) | Take(b: nat) | LeaveKiosk(b: nat)
    | LockDone(b: nat) | CountMe(b: nat) | UnlockDone(b: nat)
    | WorkerTry(i: nat) | Unload | WorkerLeave | WorkerLockDone | WorkerTest

  predicate Init(s: State) {
    && (forall i :: 0 <= i < |s.kiosks| ==> s.kiosks[i].goods >= 0 && s.kiosks[i].holder == Nobody)
    && (forall b :: 0 <= b < |s.buyers| ==> s.buyers[b].pc == Outside && s.buyers[b].need >= 0 && s.buyers[b].bought == 0)
    && s.worker == Choosing && s.done == 0 && s.doneMutex == Free && s.deliveries == 0
  }

  // ---------- steps ----------

  predicate IsBuyerStep(a: Step) {
    a.TestNeed? || a.TryKiosk? || a.Take? || a.LeaveKiosk? || a.LockDone? || a.CountMe? || a.UnlockDone?
  }

  predicate CanBuy(k: Kiosk, y: BuyerState) {
    k.goods > 0 && y.need > 0
  }

  predicate Enabled(s: State, a: Step) {
    if IsBuyerStep(a) then
      a.b < |s.buyers| &&
      var y := s.buyers[a.b];
      match a
      case TestNeed(_) => y.pc == Outside
      case TryKiosk(_) => y.pc.Trying?
      case Take(_) => y.pc.Inside? && y.pc.i < |s.kiosks| && CanBuy(s.kiosks[y.pc.i], y)
      case LeaveKiosk(_) => y.pc.Inside? && y.pc.i < |s.kiosks| && !CanBuy(s.kiosks[y.pc.i], y)
      case LockDone(_) => y.pc == Satisfied && s.doneMutex == Free
      case CountMe(_) => y.pc == Counting
      case _ => y.pc == Counted
    else
      match a
      case WorkerTry(i) => s.worker == Choosing && i < |s.kiosks|
      case Unload => s.worker.Unloading? && s.worker.i < |s.kiosks|
      case WorkerLeave => s.worker.Leaving? && s.worker.i < |s.kiosks|
      case WorkerLockDone => s.worker == Resting && s.doneMutex == Free
      case _ => s.worker == Checking
  }

  function PutBuyer(s: State, b: nat, y: BuyerState): State
    requires b < |s.buyers|
  {
    s.(buyers := s.buyers[b := y])
  }

  function PutKiosk(s: State, i: nat, k: Kiosk): State
    requires i < |s.kiosks|
  {
    s.(kiosks := s.kiosks[i := k])
  }

  function ApplyBuyer(s: State, a: Step): State
    requires Enabled(s, a) && IsBuyerStep(a)
  {
    var b := a.b;
    var y := s.buyers[b];
    match a
    case TestNeed(_) => PutBuyer(s, b, y.(pc := if y.need > 0 then Trying(0) else Satisfied))
    case TryKiosk(_) =>
      var i := y.pc.i;
      if i >= |s.kiosks| then PutBuyer(s, b, y.(pc := Outside))
      else if s.kiosks[i].holder == Nobody then
        PutKiosk(PutBuyer(s, b, y.(pc := Inside(i))), i, s.kiosks[i].(holder := Buyer(b)))
      else PutBuyer(s, b, y.(pc := Trying(i + 1)))
    case Take(_) =>
      var i := y.pc.i;
      PutKiosk(PutBuyer(s, b, y.(need := y.need - 1, bought := y.bought + 1)), i,
               s.kiosks[i].(goods := s.kiosks[i].goods - 1))
    case LeaveKiosk(_) =>
      var i := y.pc.i;
      PutKiosk(PutBuyer(s, b, y.(pc := Outside)), i, s.kiosks[i].(holder := Nobody))
    case LockDone(_) => PutBuyer(s, b, y.(pc := Counting)).(doneMutex := ByBuyer(b))
    case CountMe(_) => PutBuyer(s, b, y.(pc := Counted)).(done := s.done + 1)
    case _ => PutBuyer(s, b, y.(pc := Gone)).(doneMutex := Free)
  }

  function ApplyWorker(s: State, a: Step): State
    requires Enabled(s, a) && !IsBuyerStep(a)
  {
    match a
    case WorkerTry(i) =>
      if s.kiosks[i].holder == Nobody then
        PutKiosk(s, i, s.kiosks[i].(holder := Worker)).(worker := Unloading(i))
      else s.(worker := Resting)
    case Unload =>
      var i := s.worker.i;
      PutKiosk(s, i, s.kiosks[i].(goods := s.kiosks[i].goods + DELIVERY)).(worker := Leaving(i), deliveries := s.deliveries + 1)
    case WorkerLeave =>
      var i := s.worker.i;
      PutKiosk(s, i, s.kiosks[i].(holder := Nobody)).(worker := Resting)
    case WorkerLockDone => s.(worker := Checking, doneMutex := ByWorker)
    case _ => s.(worker := if s.done == |s.buyers| then Left else Choosing, doneMutex := Free)
  }

  function Apply(s: State, a: Step): State
    requires Enabled(s, a)
  {
    if IsBuyerStep(a) then ApplyBuyer(s, a) else ApplyWorker(s, a)
  }

  ghost predicate IsRun(s: State, steps: seq<Step>)
    decreases |steps|
  {
    steps == [] || (Enabled(s, steps[0]) && IsRun(Apply(s, steps[0]), steps[1..]))
  }

  ghost function After(s: State, steps: seq<Step>): State
    requires IsRun(s, steps)
    decreases |steps|
  {
    if steps == [] then s else After(Apply(s, steps[0]), steps[1..])
  }

  // ---------- totals ----------

  function Goods(ks: seq<Kiosk>): int {
    if ks == [] then 0 else Goods(ks[..|ks| - 1]) + ks[|ks| - 1].goods
  }

  function Bought(ys: seq<BuyerState>): int {
    if ys == [] then 0 else Bought(ys[..|ys| - 1]) + ys[|ys| - 1].bought
  }

  function Needs(ys: seq<BuyerState>): int {
    if ys == [] then 0 else Needs(ys[..|ys| - 1]) + ys[|ys| - 1].need
  }

  predicate IsCounted(y: BuyerState) {
    y.pc == Counted || y.pc == Gone
  }

  function HowManyCounted(ys: seq<BuyerState>): nat {
    if ys == [] then 0 else HowManyCounted(ys[..|ys| - 1]) + if IsCounted(ys[|ys| - 1]) then 1 else 0
  }

  lemma {:induction false} GoodsUpdate(ks: seq<Kiosk>, i: nat, k: Kiosk)
    requires i < |ks|
    ensures Goods(ks[i := k]) == Goods(ks) - ks[i].goods + k.goods
  {
    var init := ks[..|ks| - 1];
    if i < |ks| - 1 {
      GoodsUpdate(init, i, k);
      assert ks[i := k][..|ks| - 1] == init[i := k];
    } else {
      assert ks[i := k][..|ks| - 1] == init;
    }
  }

  lemma {:induction false} BuyersUpdate(ys: seq<BuyerState>, b: nat, y: BuyerState)
    requires b < |ys|
    ensures Bought(ys[b := y]) == Bought(ys) - ys[b].bought + y.bought
    ensures Needs(ys[b := y]) == Needs(ys) - ys[b].need + y.need
    ensures HowManyCounted(ys[b := y]) ==
            HowManyCounted(ys) - (if IsCounted(ys[b]) then 1 else 0) + (if IsCounted(y) then 1 else 0)
  {
    var init := ys[..|ys| - 1];
    if b < |ys| - 1 {
      BuyersUpdate(init, b, y);
      assert ys[b := y][..|ys| - 1] == init[b := y];
    } else {
      assert ys[b := y][..|ys| - 1] == init;
    }
  }

  lemma {:induction false} AllCounted(ys: seq<BuyerState>)
    ensures HowManyCounted(ys) <= |ys|
    ensures HowManyCounted(ys) == |ys| ==> forall b :: 0 <= b < |ys| ==> IsCounted(ys[b])
  {
    if ys != [] {
      AllCounted(ys[..|ys| - 1]);
    }
  }

  // ---------- the invariant ----------

  predicate WorkerIn(s: State, i: nat) {
    (s.worker.Unloading? || s.worker.Leaving?) && s.worker.i == i
  }

  predicate BuyerIn(s: State, b: nat, i: nat) {
    b < |s.buyers| && s.buyers[b].pc == Inside(i)
  }

  ghost predicate KioskInv(s: State, i: nat)
    requires i < |s.kiosks|
  {
    var k := s.kiosks[i];
    && k.goods >= 0
    && (k.holder == Worker <==> WorkerIn(s, i))
    && (forall b: nat :: k.holder == Buyer(b) <==> BuyerIn(s, b, i))
  }

  predicate BuyerInv(s: State, b: nat)
    requires b < |s.buyers|
  {
    var y := s.buyers[b];
    && y.need >= 0
    && (y.pc.Inside? ==> y.pc.i < |s.kiosks|)
    && (y.pc == Satisfied || y.pc == Counting || IsCounted(y) ==> y.need == 0)
    && (y.pc == Counting || y.pc == Counted <==> s.doneMutex == ByBuyer(b))
  }

  ghost predicate Inv(s: State) {
    && (forall i :: 0 <= i < |s.kiosks| ==> KioskInv(s, i))
    && (forall b :: 0 <= b < |s.buyers| ==> BuyerInv(s, b))
    && (s.worker.Unloading? || s.worker.Leaving? ==> s.worker.i < |s.kiosks|)
    && (s.worker == Checking <==> s.doneMutex == ByWorker)
    && s.done == HowManyCounted(s.buyers)
    && (s.worker == Left ==> s.done == |s.buyers|)
  }

  /** What no step changes: nothing is lost and nothing comes from nowhere. */
  function Balance(s: State): int {
    Goods(s.kiosks) + Bought(s.buyers) - DELIVERY * s.deliveries
  }

  function Demand(s: State): int {
    Needs(s.buyers) + Bought(s.buyers)
  }

  lemma WorkerKeepsInv(s: State, a: Step)
    requires Inv(s) && Enabled(s, a) && !IsBuyerStep(a)
    ensures Inv(Apply(s, a))
    ensures Balance(Apply(s, a)) == Balance(s) && Demand(Apply(s, a)) == Demand(s)
  {
    var s' := Apply(s, a);
    if a.WorkerTry? {
      GoodsUpdate(s.kiosks, a.i, s'.kiosks[a.i]);
      assert s'.kiosks == s.kiosks[a.i := s'.kiosks[a.i]];
    } else if a.Unload? || a.WorkerLeave? {
      GoodsUpdate(s.kiosks, s.worker.i, s'.kiosks[s.worker.i]);
      assert KioskInv(s, s.worker.i);
    }
    forall i | 0 <= i < |s'.kiosks| ensures KioskInv(s', i) {
      assert KioskInv(s, i);
      forall b: nat ensures BuyerIn(s', b, i) <==> BuyerIn(s, b, i) {
      }
    }
    forall b | 0 <= b < |s'.buyers| ensures BuyerInv(s', b) {
      assert BuyerInv(s, b);
    }
  }

  lemma BuyerKeepsTotals(s: State, a: Step)
    requires Inv(s) && Enabled(s, a) && IsBuyerStep(a)
    ensures Balance(Apply(s, a)) == Balance(s) && Demand(Apply(s, a)) == Demand(s)
    ensures Apply(s, a).done == HowManyCounted(Apply(s, a).buyers)
  {
    var s' := Apply(s, a);
    var y := s.buyers[a.b];
    BuyersUpdate(s.buyers, a.b, s'.buyers[a.b]);
    assert s'.buyers == s.buyers[a.b := s'.buyers[a.b]];
    if (y.pc.Trying? || y.pc.Inside?) && y.pc.i < |s.kiosks| {
      GoodsUpdate(s.kiosks, y.pc.i, s'.kiosks[y.pc.i]);
      assert s'.kiosks == s.kiosks[y.pc.i := s'.kiosks[y.pc.i]];
    }
  }

  lemma BuyerKeepsKiosk(s: State, a: Step, i: nat)
    requires Inv(s) && Enabled(s, a) && IsBuyerStep(a) && i < |Apply(s, a).kiosks|
    ensures KioskInv(Apply(s, a), i)
  {
    var s' := Apply(s, a);
    assert BuyerInv(s, a.b);
    assert KioskInv(s, i);
    assert BuyerIn(s, a.b, i) <==> s.kiosks[i].holder == Buyer(a.b);
    forall b: nat | b != a.b ensures BuyerIn(s', b, i) <==> BuyerIn(s, b, i) {
    }
  }

  lemma BuyerKeepsInv(s: State, a: Step)
    requires Inv(s) && Enabled(s, a) && IsBuyerStep(a)
    ensures Inv(Apply(s, a))
  {
    var s' := Apply(s, a);
    assert BuyerInv(s, a.b);
    BuyerKeepsTotals(s, a);
    AllCounted(s.buyers);
    forall i | 0 <= i < |s'.kiosks| ensures KioskInv(s', i) {
      BuyerKeepsKiosk(s, a, i);
    }
    forall b | 0 <= b < |s'.buyers| ensures BuyerInv(s', b) {
      assert BuyerInv(s, b);
    }
  }

  lemma StepKeepsInv(s: State, a: Step)
    requires Inv(s) && Enabled(s, a)
    ensures Inv(Apply(s, a))
    ensures Balance(Apply(s, a)) == Balance(s) && Demand(Apply(s, a)) == Demand(s)
  {
    if IsBuyerStep(a) {
      BuyerKeepsInv(s, a);
      BuyerKeepsTotals(s, a);
    } else {
      WorkerKeepsInv(s, a);
    }
  }

  lemma {:induction false} NobodyCounted(ys: seq<BuyerState>)
    requires forall b :: 0 <= b < |ys| ==> ys[b].pc == Outside && ys[b].bought == 0
    ensures HowManyCounted(ys) == 0 && Bought(ys) == 0
  {
    if ys != [] {
      NobodyCounted(ys[..|ys| - 1]);
    }
  }

  lemma {:induction false} RunKeepsInv(s: State, steps: seq<Step>)
    requires Inv(s) && IsRun(s, steps)
    ensures Inv(After(s, steps))
    ensures Balance(After(s, steps)) == Balance(s) && Demand(After(s, steps)) == Demand(s)
    ensures |After(s, steps).buyers| == |s.buyers|
    decreases |steps|
  {
    if steps != [] {
      StepKeepsInv(s, steps[0]);
      RunKeepsInv(Apply(s, steps[0]), steps[1..]);
    }
  }

  // ---------- what holds in every reachable state ----------

  lemma InitInv(s: State)
    requires Init(s)
    ensures Inv(s)
  {
    NobodyCounted(s.buyers);
  }

  /** Goods in the kiosks and goods bought always add up to the initial stock and 200 for each
      delivery; what is still needed and what was bought add up to the initial needs. */
  lemma GoodsAreConserved(s: State, steps: seq<Step>)
    requires Init(s) && IsRun(s, steps)
    ensures var t := After(s, steps);
            && Goods(t.kiosks) + Bought(t.buyers) == Goods(s.kiosks) + 200 * t.deliveries
            && Needs(t.buyers) + Bought(t.buyers) == Needs(s.buyers)
  {
    InitInv(s);
    NobodyCounted(s.buyers);
    RunKeepsInv(s, steps);
  }

  /** Stock and needs never go negative, and no kiosk has two holders. */
  lemma NeverNegativeNeverShared(s: State, steps: seq<Step>, i: nat, b: nat, c: nat)
    requires Init(s) && IsRun(s, steps)
    ensures var t := After(s, steps);
            && (i < |t.kiosks| ==> t.kiosks[i].goods >= 0)
            && (b < |t.buyers| ==> t.buyers[b].need >= 0)
            && (BuyerIn(t, b, i) && BuyerIn(t, c, i) ==> b == c)
            && !(BuyerIn(t, b, i) && WorkerIn(t, i))
  {
    InitInv(s);
    RunKeepsInv(s, steps);
    var t := After(s, steps);
    if b < |t.buyers| {
      assert BuyerInv(t, b);
    }
    if i < |t.kiosks| {
      assert KioskInv(t, i);
    }
  }

  /** The worker leaves its loop by its own test only when every need is met. */
  lemma WorkerLeavesLast(s: State, steps: seq<Step>, b: nat)
    requires Init(s) && IsRun(s, steps) && After(s, steps).worker == Left && b < |s.buyers|
    ensures var t := After(s, steps); b < |t.buyers| && t.buyers[b].need == 0 && IsCounted(t.buyers[b])
  {
    InitInv(s);
    RunKeepsInv(s, steps);
    var t := After(s, steps);
    AllCounted(t.buyers);
    assert BuyerInv(t, b);
  }

  lemma {:induction false} AllOfThem(ys: seq<BuyerState>)
    requires forall b :: 0 <= b < |ys| ==> IsCounted(ys[b])
    ensures HowManyCounted(ys) == |ys|
  {
    if ys != [] {
      AllOfThem(ys[..|ys| - 1]);
    }
  }

  /** And when they are all counted it does leave. */
  lemma WorkerLeavesExactlyThen(s: State, steps: seq<Step>)
    requires Init(s) && IsRun(s, steps) && Enabled(After(s, steps), WorkerTest)
    ensures var t := After(s, steps);
            Apply(t, WorkerTest).worker == Left <==> forall b :: 0 <= b < |t.buyers| ==> IsCounted(t.buyers[b])
  {
    InitInv(s);
    RunKeepsInv(s, steps);
    var t := After(s, steps);
    AllCounted(t.buyers);
    if forall b :: 0 <= b < |t.buyers| ==> IsCounted(t.buyers[b]) {
      AllOfThem(t.buyers);
    }
  }

  // ---------- a visit ----------

  /** A buyer leaves a kiosk only with its needs met or the kiosk empty, and goes home only with
      its needs met. */
  lemma LeavesWithReason(s: State, steps: seq<Step>, b: nat)
    requires Init(s) && IsRun(s, steps) && b < |After(s, steps).buyers|
    ensures var t := After(s, steps);
            && (Enabled(t, LeaveKiosk(b)) ==> t.buyers[b].need == 0 || t.kiosks[t.buyers[b].pc.i].goods == 0)
            && (Enabled(t, TestNeed(b)) ==> (Apply(t, TestNeed(b)).buyers[b].pc == Satisfied <==> t.buyers[b].need == 0))
  {
    InitInv(s);
    RunKeepsInv(s, steps);
    var t := After(s, steps);
    assert BuyerInv(t, b);
    if Enabled(t, LeaveKiosk(b)) {
      assert KioskInv(t, t.buyers[b].pc.i);
    }
  }

  /** What a visit comes to: as much as is there or as is needed, and the kiosk left to others. */
  function Visited(s: State, b: nat): State
    requires b < |s.buyers| && s.buyers[b].pc.Inside? && s.buyers[b].pc.i < |s.kiosks|
    requires s.kiosks[s.buyers[b].pc.i].goods >= 0 && s.buyers[b].need >= 0
  {
    var y := s.buyers[b];
    var k := s.kiosks[y.pc.i];
    var n := if k.goods <= y.need then k.goods else y.need;
    s.(kiosks := s.kiosks[y.pc.i := Kiosk(k.goods - n, Nobody)],
       buyers := s.buyers[b := BuyerState(Outside, y.need - n, y.bought + n)])
  }

  /** Left to itself, a buyer in a kiosk buys that much and leaves. */
  lemma {:induction false} VisitBuys(s: State, b: nat) returns (steps: seq<Step>)
    requires b < |s.buyers| && s.buyers[b].pc.Inside? && s.buyers[b].pc.i < |s.kiosks|
    requires s.kiosks[s.buyers[b].pc.i].goods >= 0 && s.buyers[b].need >= 0
    ensures IsRun(s, steps) && After(s, steps) == Visited(s, b)
    decreases s.buyers[b].need
  {
    var y := s.buyers[b];
    var i := y.pc.i;
    if CanBuy(s.kiosks[i], y) {
      var s' := Apply(s, Take(b));
      var rest := VisitBuys(s', b);
      steps := [Take(b)] + rest;
      assert steps[1..] == rest;
      assert Visited(s', b).kiosks == Visited(s, b).kiosks && Visited(s', b).buyers == Visited(s, b).buyers;
    } else {
      steps := [LeaveKiosk(b)];
      assert steps[1..] == [];
      assert s.kiosks[i := Kiosk(s.kiosks[i].goods, Nobody)] == Visited(s, b).kiosks;
    }
  }

  /** Left to itself, a buyer that starts looking enters the first kiosk that is free. */
  lemma {:induction false} FindsTheFirstFree(s: State, b: nat, i: nat) returns (steps: seq<Step>)
    requires b < |s.buyers| && s.buyers[b].pc.Trying? && s.buyers[b].pc.i <= i < |s.kiosks|
    requires s.kiosks[i].holder == Nobody
    requires forall k :: s.buyers[b].pc.i <= k < i ==> s.kiosks[k].holder != Nobody
    ensures IsRun(s, steps)
    ensures After(s, steps) == s.(kiosks := s.kiosks[i := s.kiosks[i].(holder := Buyer(b))],
                                  buyers := s.buyers[b := s.buyers[b].(pc := Inside(i))])
    decreases i - s.buyers[b].pc.i
  {
    var s' := Apply(s, TryKiosk(b));
    if s.buyers[b].pc.i < i {
      var rest := FindsTheFirstFree(s', b, i);
      steps := [TryKiosk(b)] + rest;
      assert steps[1..] == rest;
      assert s'.buyers[b := s'.buyers[b].(pc := Inside(i))] == s.buyers[b := s.buyers[b].(pc := Inside(i))];
    } else {
      steps := [TryKiosk(b)];
      assert steps[1..] == [];
    }
  }

  /** Left to itself, the worker brings 200 goods to a kiosk that it finds free and goes on; a kiosk
      that is taken it passes by. */
  lemma WorkerDelivers(s: State, i: nat)
    requires s.worker == Choosing && i < |s.kiosks|
    ensures if s.kiosks[i].holder == Nobody
            then IsRun(s, [WorkerTry(i), Unload, WorkerLeave]) &&
                 After(s, [WorkerTry(i), Unload, WorkerLeave]) ==
                 s.(kiosks := s.kiosks[i := Kiosk(s.kiosks[i].goods + 200, Nobody)], worker := Resting,
                    deliveries := s.deliveries + 1)
            else Enabled(s, WorkerTry(i)) && Apply(s, WorkerTry(i)) == s.(worker := Resting)
  {
    if s.kiosks[i].holder == Nobody {
      var s1 := s.(kiosks := s.kiosks[i := s.kiosks[i].(holder := Worker)], worker := Unloading(i));
      assert Enabled(s, WorkerTry(i)) && Apply(s, WorkerTry(i)) == s1;
      UnloadsAndLeaves(s1, s.kiosks, i);
      OneStepRun(s, WorkerTry(i), [Unload, WorkerLeave]);
      assert [WorkerTry(i)] + [Unload, WorkerLeave] == [WorkerTry(i), Unload, WorkerLeave];
    }
  }

  lemma UnloadsAndLeaves(s: State, kiosks: seq<Kiosk>, i: nat)
    requires s.worker == Unloading(i) && i < |kiosks| && s.kiosks == kiosks[i := kiosks[i].(holder := Worker)]
    ensures IsRun(s, [Unload, WorkerLeave])
    ensures After(s, [Unload, WorkerLeave]) ==
            s.(kiosks := kiosks[i := Kiosk(kiosks[i].goods + 200, Nobody)], worker := Resting, deliveries := s.deliveries + 1)
  {
    var s2 := s.(kiosks := kiosks[i := Kiosk(kiosks[i].goods + 200, Worker)], worker := Leaving(i),
                 deliveries := s.deliveries + 1);
    assert s.kiosks[i := Kiosk(kiosks[i].goods + 200, Worker)] == s2.kiosks;
    assert Enabled(s, Unload) && Apply(s, Unload) == s2;
    assert s2.kiosks[i := Kiosk(kiosks[i].goods + 200, Nobody)] == kiosks[i := Kiosk(kiosks[i].goods + 200, Nobody)];
    OneStepRun(s2, WorkerLeave, []);
    OneStepRun(s, Unload, [WorkerLeave]);
    assert [Unload] + [WorkerLeave] == [Unload, WorkerLeave] && [WorkerLeave] + [] == [WorkerLeave];
  }

  lemma OneStepRun(s: State, a: Step, rest: seq<Step>)
    requires Enabled(s, a) && IsRun(Apply(s, a), rest)
    ensures IsRun(s, [a] + rest) && After(s, [a] + rest) == After(Apply(s, a), rest)
  {
    assert ([a] + rest)[1..] == rest;
  }
}
