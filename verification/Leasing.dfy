/** The leased two-tier mode: nodes lease batches from a shared window budget and may carry leftover credits across its roll. */
module Leasing {

  /** Whether leftover credits expire when the window rolls distinguishes the two variants. */
  datatype Params = Params(nodes: nat, limit: nat, batch: nat, expire: bool) {
    ghost predicate Valid() { batch >= 1 }

    /** The most a window can admit. */
    function Bound(): nat
      requires batch >= 1
    {
      if expire then limit else limit + Carry(this, nodes)
    }
  }

  /** The shared budget left, each node's leased credits, what this window admitted and what was carried into it. */
  datatype State = State(l2: nat, credits: seq<nat>, admitted: nat, carried: nat)

  datatype Step = Request(node: nat, cost: nat) | Roll

  predicate Legal(p: Params, step: Step) { step.Request? ==> step.node < p.nodes && step.cost >= 1 }

  predicate AllLegal(p: Params, steps: seq<Step>) {
    forall i :: 0 <= i < |steps| ==> Legal(p, steps[i])
  }

  function Sum(xs: seq<nat>): nat {
    if xs == [] then 0 else Sum(xs[..|xs| - 1]) + xs[|xs| - 1]
  }

  function Zeros(n: nat): (z: seq<nat>)
    ensures |z| == n && forall i :: 0 <= i < n ==> z[i] == 0
  {
    seq(n, i => 0)
  }

  function Initial(p: Params): State { State(p.limit, Zeros(p.nodes), 0, 0) }

  function LeaseAmount(p: Params, cost: nat): nat { if p.batch > cost then p.batch else cost }

  function Allowed(p: Params, s: State, node: nat, cost: nat): bool
    requires node < |s.credits|
  {
    s.credits[node] >= cost || s.l2 >= LeaseAmount(p, cost)
  }

  /** The leased check of one node, and the roll of the shared window. */
  function Apply(p: Params, s: State, step: Step): State
    requires |s.credits| == p.nodes && Legal(p, step)
  {
    match step
    case Request(node, cost) =>
      var have, amount := s.credits[node], LeaseAmount(p, cost);
      if have >= cost then s.(credits := s.credits[node := have - cost], admitted := s.admitted + cost)
      else if s.l2 >= amount then
        s.(l2 := s.l2 - amount, credits := s.credits[node := have + amount - cost], admitted := s.admitted + cost)
      else s
    case Roll =>
      var credits := if p.expire then Zeros(p.nodes) else s.credits;
      State(p.limit, credits, 0, Sum(credits))
  }

  // ---------------------------------------------------------------- what every step keeps

  /** What k nodes carry over. */
  function Carry(p: Params, k: nat): nat
    requires p.batch >= 1
  {
    k * (p.batch - 1)
  }

  /** No node holds a whole batch, and every token of the window is admitted, leased or left. */
  ghost predicate Inv(p: Params, s: State) {
    && p.Valid() && |s.credits| == p.nodes && s.l2 <= p.limit
    && (forall i :: 0 <= i < |s.credits| ==> s.credits[i] < p.batch)
    && s.admitted + Sum(s.credits) + s.l2 == p.limit + s.carried
    && s.carried <= (if p.expire then 0 else Carry(p, p.nodes))
  }

  lemma {:induction false} SumUpdate(xs: seq<nat>, i: nat, y: nat)
    requires i < |xs|
    ensures Sum(xs[i := y]) + xs[i] == Sum(xs) + y
  {
    var n := |xs| - 1;
    if i < n {
      SumUpdate(xs[..n], i, y);
      assert xs[i := y][..n] == xs[..n][i := y];
    } else {
      assert xs[i := y][..n] == xs[..n];
    }
  }

  lemma CarryStep(p: Params, k: nat)
    requires p.batch >= 1
    ensures k >= 1 ==> Carry(p, k - 1) + (p.batch - 1) == Carry(p, k)
    ensures k == 0 || p.batch == 1 ==> Carry(p, k) == 0
  {
  }

  lemma {:induction false} SumBelow(p: Params, xs: seq<nat>)
    requires p.batch >= 1 && forall i :: 0 <= i < |xs| ==> xs[i] < p.batch
    ensures Sum(xs) <= Carry(p, |xs|)
  {
    CarryStep(p, |xs|);
    if xs != [] { SumBelow(p, xs[..|xs| - 1]); }
  }

  lemma {:induction false} SumZeros(n: nat)
    ensures Sum(Zeros(n)) == 0
  {
    if n > 0 {
      SumZeros(n - 1);
      assert Zeros(n)[..n - 1] == Zeros(n - 1);
    }
  }

  lemma InitialInv(p: Params)
    requires p.Valid()
    ensures Inv(p, Initial(p))
  {
    SumZeros(p.nodes);
  }

  lemma StepKeepsInv(p: Params, s: State, step: Step)
    requires Inv(p, s) && Legal(p, step)
    ensures Inv(p, Apply(p, s, step))
  {
    match step
    case Request(node, cost) =>
      SumUpdate(s.credits, node, Apply(p, s, step).credits[node]);
    case Roll =>
      SumZeros(p.nodes);
      SumBelow(p, s.credits);
  }

  function Play(p: Params, s: State, steps: seq<Step>): (r: State)
    requires |s.credits| == p.nodes && AllLegal(p, steps)
    ensures |r.credits| == p.nodes
  {
    if steps == [] then s else Apply(p, Play(p, s, steps[..|steps| - 1]), steps[|steps| - 1])
  }

  lemma {:induction false} PlayKeepsInv(p: Params, s: State, steps: seq<Step>)
    requires Inv(p, s) && AllLegal(p, steps)
    ensures Inv(p, Play(p, s, steps))
  {
    if steps != [] {
      PlayKeepsInv(p, s, steps[..|steps| - 1]);
      StepKeepsInv(p, Play(p, s, steps[..|steps| - 1]), steps[|steps| - 1]);
    }
  }

  /**
   * For every fleet size, limit, batch and all positive costs, a window admits at most Limit + N*(Batch-1) tokens when
   * credits carry over, and at most Limit, whatever the fleet size, when they expire on the roll.
   */
  lemma WindowBound(p: Params, steps: seq<Step>)
    requires p.Valid() && AllLegal(p, steps)
    ensures Play(p, Initial(p), steps).admitted <= p.Bound()
  {
    InitialInv(p);
    PlayKeepsInv(p, Initial(p), steps);
  }

  // ---------------------------------------------------------------- the bound is attained

  lemma {:induction false} PlayAppend(p: Params, s: State, a: seq<Step>, b: seq<Step>)
    requires |s.credits| == p.nodes && AllLegal(p, a) && AllLegal(p, b)
    ensures Play(p, s, a + b) == Play(p, Play(p, s, a), b)
  {
    if b == [] {
      assert a + b == a;
    } else {
      PlayAppend(p, s, a, b[..|b| - 1]);
      assert (a + b)[..|a + b| - 1] == a + b[..|b| - 1];
    }
  }

  /** The first k nodes hold a batch less one, the others nothing. */
  function Banked(p: Params, k: nat): (c: seq<nat>)
    requires p.batch >= 1
    ensures |c| == p.nodes && forall i :: 0 <= i < |c| ==> c[i] == if i < k then p.batch - 1 else 0
  {
    seq(p.nodes, i => if i < k then p.batch - 1 else 0)
  }

  /** Each of the first k nodes leases once, in a window of its own, for a single token. */
  function Bank(k: nat): seq<Step> {
    if k == 0 then [] else Bank(k - 1) + [Roll, Request(k - 1, 1)]
  }

  lemma BankOne(p: Params, s: State, k: nat)
    requires p.Valid() && !p.expire && p.limit >= p.batch && 1 <= k <= p.nodes && s.credits == Banked(p, k - 1)
    ensures Play(p, s, [Roll, Request(k - 1, 1)]).credits == Banked(p, k)
  {
    PlayTwo(p, s, Roll, Request(k - 1, 1));
    assert Banked(p, k - 1)[k - 1 := p.batch - 1] == Banked(p, k);
  }

  lemma {:induction false} BankLegal(p: Params, k: nat)
    requires k <= p.nodes
    ensures forall i :: 0 <= i < |Bank(k)| ==> Legal(p, Bank(k)[i])
  {
    if k > 0 { BankLegal(p, k - 1); }
  }

  lemma {:induction false} BankBanks(p: Params, k: nat)
    requires p.Valid() && !p.expire && p.limit >= p.batch && k <= p.nodes
    ensures forall i :: 0 <= i < |Bank(k)| ==> Legal(p, Bank(k)[i])
    ensures Play(p, Initial(p), Bank(k)).credits == Banked(p, k)
  {
    BankLegal(p, k);
    if k > 0 {
      BankLegal(p, k - 1);
      BankBanks(p, k - 1);
      BankOne(p, Play(p, Initial(p), Bank(k - 1)), k);
      PlayAppend(p, Initial(p), Bank(k - 1), [Roll, Request(k - 1, 1)]);
    } else {
      assert Zeros(p.nodes) == Banked(p, 0);
    }
  }

  lemma PlayTwo(p: Params, s: State, a: Step, b: Step)
    requires |s.credits| == p.nodes && Legal(p, a) && Legal(p, b)
    ensures Play(p, s, [a, b]) == Apply(p, Apply(p, s, a), b)
  {
    PlayAppend(p, s, [a], [b]);
    assert [a, b] == [a] + [b];
    PlayOne(p, s, a);
    PlayOne(p, Apply(p, s, a), b);
  }

  lemma PlayOne(p: Params, s: State, a: Step)
    requires |s.credits| == p.nodes && Legal(p, a)
    ensures Play(p, s, [a]) == Apply(p, s, a)
  {
    assert [a][..0] == [];
  }

  /** The first k nodes spend their banked credits, one request each; a batch of one banks none. */
  function Spend(p: Params, k: nat): seq<Step>
    requires p.batch >= 1
  {
    if k == 0 || p.batch == 1 then [] else Spend(p, k - 1) + [Request(k - 1, p.batch - 1)]
  }

  /** Nodes from k on still hold their banked credits. */
  function Unspent(p: Params, k: nat): (c: seq<nat>)
    requires p.batch >= 1
    ensures |c| == p.nodes && forall i :: 0 <= i < |c| ==> c[i] == if i < k then 0 else p.batch - 1
  {
    seq(p.nodes, i => if i < k then 0 else p.batch - 1)
  }

  lemma SpendOne(p: Params, s: State, k: nat)
    requires p.Valid() && p.batch > 1 && 1 <= k <= p.nodes && s.credits == Unspent(p, k - 1)
    ensures Play(p, s, [Request(k - 1, p.batch - 1)]) == State(s.l2, Unspent(p, k), s.admitted + (p.batch - 1), s.carried)
  {
    PlayOne(p, s, Request(k - 1, p.batch - 1));
    assert Unspent(p, k - 1)[k - 1 := 0] == Unspent(p, k);
  }

  lemma {:induction false} SpendSpends(p: Params, s: State, k: nat)
    requires p.Valid() && k <= p.nodes && s.credits == Banked(p, p.nodes)
    ensures AllLegal(p, Spend(p, k))
    ensures Play(p, s, Spend(p, k)) == State(s.l2, Unspent(p, k), s.admitted + Carry(p, k), s.carried)
  {
    CarryStep(p, k);
    if k == 0 || p.batch == 1 {
      assert s.credits == Unspent(p, k);
    } else {
      SpendSpends(p, s, k - 1);
      PlayAppend(p, s, Spend(p, k - 1), [Request(k - 1, p.batch - 1)]);
      SpendOne(p, Play(p, s, Spend(p, k - 1)), k);
    }
  }

  /** Bank on every node, roll, spend everything banked, then take the whole fresh limit in one request. */
  function Worst(p: Params): seq<Step>
    requires p.batch >= 1
  {
    Bank(p.nodes) + [Roll] + Spend(p, p.nodes) + [Request(0, p.limit)]
  }

  lemma WorstAttains(p: Params)
    requires p.Valid() && !p.expire && p.nodes >= 1 && p.limit >= p.batch
    ensures AllLegal(p, Worst(p))
    ensures Play(p, Initial(p), Worst(p)).admitted == p.Bound()
  {
    var bank, spend := Bank(p.nodes), Spend(p, p.nodes);
    BankBanks(p, p.nodes);
    var s := Play(p, Initial(p), bank);
    PlayAppend(p, Initial(p), bank, [Roll]);
    PlayOne(p, s, Roll);
    var t := Apply(p, s, Roll);
    SpendSpends(p, t, p.nodes);
    PlayAppend(p, Initial(p), bank + [Roll], spend);
    PlayAppend(p, Initial(p), bank + [Roll] + spend, [Request(0, p.limit)]);
    PlayOne(p, Play(p, t, spend), Request(0, p.limit));
  }

  /** A limit below one batch never leases, and never admits anything. */
  lemma {:induction false} TooSmallToLease(p: Params, steps: seq<Step>)
    requires p.Valid() && p.limit < p.batch && AllLegal(p, steps)
    ensures var s := Play(p, Initial(p), steps); s.admitted == 0 && s.credits == Zeros(p.nodes) && s.l2 == p.limit
  {
    if steps != [] { TooSmallToLease(p, steps[..|steps| - 1]); }
  }

  ghost predicate Reaches(p: Params, steps: seq<Step>, tokens: nat) {
    AllLegal(p, steps) && Play(p, Initial(p), steps).admitted == tokens
  }

  /** With carryover the bound is attained exactly when the limit holds a whole batch, or when the bound is zero. */
  lemma AttainedExactlyWhen(p: Params)
    requires p.Valid() && !p.expire && p.nodes >= 1
    ensures (exists steps :: Reaches(p, steps, p.Bound())) <==> p.limit >= p.batch || p.Bound() == 0
  {
    if p.limit >= p.batch {
      WorstAttains(p);
      assert Reaches(p, Worst(p), p.Bound());
    } else {
      if steps :| Reaches(p, steps, p.Bound()) { TooSmallToLease(p, steps); }
      assert p.Bound() == 0 ==> Reaches(p, [], p.Bound());
    }
  }

  // ---------------------------------------------------------------- unit costs

  ghost predicate UnitCosts(p: Params, steps: seq<Step>) {
    forall i :: 0 <= i < |steps| ==> Legal(p, steps[i]) && (steps[i].Request? ==> steps[i].cost == 1)
  }

  /** With unit costs the budget is leased in whole batches. */
  lemma {:induction false} WholeBatches(p: Params, steps: seq<Step>)
    requires p.Valid() && UnitCosts(p, steps)
    ensures (p.limit - Play(p, Initial(p), steps).l2) % p.batch == 0
  {
    if steps == [] {
      assert 0 % p.batch == 0;
    } else {
      var before := Play(p, Initial(p), steps[..|steps| - 1]);
      WholeBatches(p, steps[..|steps| - 1]);
      InitialInv(p);
      PlayKeepsInv(p, Initial(p), steps[..|steps| - 1]);
      OneMoreBatch(p.limit - before.l2, p.batch);
    }
  }

  lemma OneMoreBatch(leased: int, batch: int)
    requires batch >= 1 && leased % batch == 0
    ensures (leased + batch) % batch == 0 && 0 % batch == 0
  {
    var q := leased / batch;
    assert leased == q * batch;
    assert (q + 1) * batch == q * batch + batch;
    MultipleOf(q + 1, batch);
  }

  lemma MultipleOf(q: int, batch: int)
    requires batch >= 1
    ensures (q * batch) % batch == 0
  {
    var x := q * batch;
    var r, k := x % batch, x / batch;
    assert x == k * batch + r;
    assert (q - k) * batch == r;
    assert q - k >= 1 ==> (q - k) * batch >= batch;
    assert q - k <= -1 ==> (q - k) * batch <= -batch;
  }

  lemma WholePart(leased: nat, limit: nat, batch: nat)
    requires batch >= 1 && leased <= limit && leased % batch == 0
    ensures leased <= limit - limit % batch
  {
    var q, m := leased / batch, limit / batch;
    assert leased == q * batch && limit == m * batch + limit % batch;
    assert q > m ==> q * batch >= (m + 1) * batch;
    assert q <= m ==> q * batch <= m * batch;
  }

  /** With unit costs a window admits at most the whole batches of the limit plus what was carried over. */
  lemma UnitBound(p: Params, steps: seq<Step>)
    requires p.Valid() && UnitCosts(p, steps)
    ensures Play(p, Initial(p), steps).admitted <= p.Bound() - p.limit % p.batch
  {
    InitialInv(p);
    PlayKeepsInv(p, Initial(p), steps);
    WholeBatches(p, steps);
    WholePart(p.limit - Play(p, Initial(p), steps).l2, p.limit, p.batch);
  }

  // ---------------------------------------------------------------- and unit costs attain it

  /** The most a window can admit when every request costs one token. */
  function UnitCap(p: Params): int
    requires p.batch >= 1
  {
    p.Bound() - p.limit % p.batch
  }

  /** One-token requests lead from s to t. */
  ghost predicate Leads(p: Params, s: State, steps: seq<Step>, t: State) {
    UnitCosts(p, steps) && |s.credits| == p.nodes && Play(p, s, steps) == t
  }

  lemma LeadsOn(p: Params, s: State, a: seq<Step>, t: State, b: seq<Step>, u: State)
    requires Leads(p, s, a, t) && Leads(p, t, b, u)
    ensures Leads(p, s, a + b, u)
  {
    PlayAppend(p, s, a, b);
  }

  lemma LeadsOne(p: Params, s: State, step: Step)
    requires |s.credits| == p.nodes && Legal(p, step) && (step.Request? ==> step.cost == 1)
    ensures Leads(p, s, [step], Apply(p, s, step))
  {
    PlayOne(p, s, step);
  }

  lemma LeadsNowhere(p: Params, s: State)
    requires |s.credits| == p.nodes
    ensures Leads(p, s, [], s)
  {
  }

  /** One node's requests, one token each. */
  function Units(node: nat, n: nat): seq<Step> { if n == 0 then [] else Units(node, n - 1) + [Request(node, 1)] }

  /** After a node served n tokens from its credits. */
  function Served(s: State, node: nat, n: nat): State
    requires node < |s.credits| && s.credits[node] >= n
  {
    s.(credits := s.credits[node := s.credits[node] - n], admitted := s.admitted + n)
  }

  lemma ServeOne(p: Params, s: State, node: nat, n: nat)
    requires node < p.nodes == |s.credits| && s.credits[node] >= n >= 1
    ensures Apply(p, Served(s, node, n - 1), Request(node, 1)) == Served(s, node, n)
  {
    var t := Served(s, node, n - 1);
    assert t.credits[node := t.credits[node] - 1] == s.credits[node := s.credits[node] - n];
  }

  lemma ServeNone(s: State, node: nat)
    requires node < |s.credits|
    ensures Served(s, node, 0) == s
  {
    assert s.credits[node := s.credits[node]] == s.credits;
  }

  /** A node with n credits serves n requests locally. */
  lemma {:induction false} ServesLocally(p: Params, s: State, node: nat, n: nat)
    requires node < p.nodes == |s.credits| && s.credits[node] >= n
    ensures Leads(p, s, Units(node, n), Served(s, node, n))
  {
    if n == 0 {
      ServeNone(s, node);
      LeadsNowhere(p, s);
    } else {
      var t := Served(s, node, n - 1);
      ServesLocally(p, s, node, n - 1);
      ServeOne(p, s, node, n);
      LeadsOne(p, t, Request(node, 1));
      LeadsOn(p, s, Units(node, n - 1), t, [Request(node, 1)], Served(s, node, n));
    }
  }

  /** The first k nodes spend their banked credits token by token. */
  function SpendUnits(p: Params, k: nat): seq<Step>
    requires p.batch >= 1
  {
    if k == 0 then [] else SpendUnits(p, k - 1) + Units(k - 1, p.batch - 1)
  }

  /** After the first k nodes spent what they had banked. */
  function Emptied(p: Params, s: State, k: nat): State
    requires p.batch >= 1
  {
    State(s.l2, Unspent(p, k), s.admitted + Carry(p, k), s.carried)
  }

  lemma EmptyOne(p: Params, s: State, k: nat)
    requires p.batch >= 1 && 1 <= k <= p.nodes
    ensures Served(Emptied(p, s, k - 1), k - 1, p.batch - 1) == Emptied(p, s, k)
  {
    CarryStep(p, k);
    assert Unspent(p, k - 1)[k - 1 := 0] == Unspent(p, k);
  }

  lemma EmptiedNone(p: Params, s: State)
    requires p.Valid() && s.credits == Banked(p, p.nodes)
    ensures Emptied(p, s, 0) == s
  {
    CarryStep(p, 0);
    assert s.credits == Unspent(p, 0);
  }

  lemma {:induction false} UnitsSpend(p: Params, s: State, k: nat)
    requires p.Valid() && k <= p.nodes && s.credits == Banked(p, p.nodes)
    ensures Leads(p, s, SpendUnits(p, k), Emptied(p, s, k))
  {
    if k == 0 {
      EmptiedNone(p, s);
      LeadsNowhere(p, s);
    } else {
      var t := Emptied(p, s, k - 1);
      UnitsSpend(p, s, k - 1);
      ServesLocally(p, t, k - 1, p.batch - 1);
      EmptyOne(p, s, k);
      LeadsOn(p, s, SpendUnits(p, k - 1), t, Units(k - 1, p.batch - 1), Emptied(p, s, k));
    }
  }

  /** Node 0 leases a batch and serves it token by token. */
  function OneBatch(p: Params): seq<Step>
    requires p.batch >= 1
  {
    [Request(0, 1)] + Units(0, p.batch - 1)
  }

  function Drain(p: Params, q: nat): seq<Step>
    requires p.batch >= 1
  {
    if q == 0 then [] else Drain(p, q - 1) + OneBatch(p)
  }

  /** q whole batches. */
  function Batches(p: Params, q: nat): nat { q * p.batch }

  lemma BatchesStep(p: Params, q: nat)
    ensures q > 0 ==> Batches(p, q) == Batches(p, q - 1) + p.batch
    ensures Batches(p, 0) == 0
  {
  }

  function Drained(s: State, tokens: nat): State
    requires s.l2 >= tokens
  {
    s.(l2 := s.l2 - tokens, admitted := s.admitted + tokens)
  }

  lemma LeaseOne(p: Params, s: State, t: State)
    requires p.Valid() && p.nodes >= 1 && |s.credits| == p.nodes && s.credits[0] == 0 && s.l2 >= p.batch
    requires t == State(s.l2 - p.batch, s.credits[0 := p.batch - 1], s.admitted + 1, s.carried)
    ensures Apply(p, s, Request(0, 1)) == t && Served(t, 0, p.batch - 1) == Drained(s, p.batch)
  {
    assert t.credits[0 := 0] == s.credits;
  }

  lemma DrainOne(p: Params, s: State)
    requires p.Valid() && p.nodes >= 1 && |s.credits| == p.nodes && s.credits[0] == 0 && s.l2 >= p.batch
    ensures Leads(p, s, OneBatch(p), Drained(s, p.batch))
  {
    var t := State(s.l2 - p.batch, s.credits[0 := p.batch - 1], s.admitted + 1, s.carried);
    LeaseOne(p, s, t);
    LeadsOne(p, s, Request(0, 1));
    ServesLocally(p, t, 0, p.batch - 1);
    LeadsOn(p, s, [Request(0, 1)], t, Units(0, p.batch - 1), Drained(s, p.batch));
  }

  lemma {:induction false} Drains(p: Params, s: State, q: nat)
    requires p.Valid() && p.nodes >= 1 && |s.credits| == p.nodes && s.credits[0] == 0 && s.l2 >= Batches(p, q)
    ensures Leads(p, s, Drain(p, q), Drained(s, Batches(p, q)))
  {
    BatchesStep(p, q);
    if q == 0 {
      LeadsNowhere(p, s);
    } else {
      var t := Drained(s, Batches(p, q - 1));
      Drains(p, s, q - 1);
      DrainOne(p, t);
      LeadsOn(p, s, Drain(p, q - 1), t, OneBatch(p), Drained(s, Batches(p, q)));
    }
  }

  lemma WholeBatchesOf(p: Params)
    requires p.batch >= 1
    ensures Batches(p, p.limit / p.batch) == p.limit - p.limit % p.batch
  {
  }

  /** Bank on every node, roll, spend everything banked and then the limit's whole batches, always one token at a time. */
  function UnitWorst(p: Params): seq<Step>
    requires p.batch >= 1
  {
    if p.expire then Drain(p, p.limit / p.batch)
    else Bank(p.nodes) + [Roll] + SpendUnits(p, p.nodes) + Drain(p, p.limit / p.batch)
  }

  lemma {:induction false} BankUnits(p: Params, k: nat)
    requires k <= p.nodes
    ensures UnitCosts(p, Bank(k))
  {
    if k > 0 { BankUnits(p, k - 1); }
  }

  lemma UnitWorstAttains(p: Params)
    requires p.Valid() && p.nodes >= 1 && (p.expire || p.limit >= p.batch)
    ensures UnitCosts(p, UnitWorst(p)) && Play(p, Initial(p), UnitWorst(p)).admitted == UnitCap(p)
  {
    WholeBatchesOf(p);
    if p.expire {
      Drains(p, Initial(p), p.limit / p.batch);
    } else {
      var t := UnitCarryover(p, p.limit / p.batch);
    }
  }

  lemma UnitCarryover(p: Params, q: nat) returns (t: State)
    requires p.Valid() && p.nodes >= 1 && !p.expire && p.limit >= p.batch && Batches(p, q) <= p.limit
    ensures Leads(p, Initial(p), Bank(p.nodes) + [Roll] + SpendUnits(p, p.nodes) + Drain(p, q), t)
    ensures t.admitted == Carry(p, p.nodes) + Batches(p, q)
  {
    var bank, spend := Bank(p.nodes), SpendUnits(p, p.nodes);
    BankUnits(p, p.nodes);
    BankBanks(p, p.nodes);
    var s := Play(p, Initial(p), bank);
    var rolled := Apply(p, s, Roll);
    LeadsOne(p, s, Roll);
    LeadsOn(p, Initial(p), bank, s, [Roll], rolled);
    UnitsSpend(p, rolled, p.nodes);
    var empty := Emptied(p, rolled, p.nodes);
    LeadsOn(p, Initial(p), bank + [Roll], rolled, spend, empty);
    t := Drained(empty, Batches(p, q));
    Drains(p, empty, q);
    LeadsOn(p, Initial(p), bank + [Roll] + spend, empty, Drain(p, q), t);
  }

  ghost predicate UnitReaches(p: Params, steps: seq<Step>, tokens: int) {
    UnitCosts(p, steps) && Play(p, Initial(p), steps).admitted == tokens
  }

  /** Unit costs attain their bound exactly when the limit holds a whole batch, or when that bound is zero. */
  lemma UnitAttainedExactlyWhen(p: Params)
    requires p.Valid() && p.nodes >= 1
    ensures (exists steps :: UnitReaches(p, steps, UnitCap(p))) <==> p.limit >= p.batch || UnitCap(p) == 0
  {
    if p.limit >= p.batch {
      UnitWorstAttains(p);
      assert UnitReaches(p, UnitWorst(p), UnitCap(p));
    } else {
      if steps :| UnitReaches(p, steps, UnitCap(p)) { TooSmallToLease(p, steps); }
      if UnitCap(p) == 0 { assert UnitReaches(p, [], UnitCap(p)); }
    }
  }

  // ---------------------------------------------------------------- the mode itself

  /**
   * What a check does: it spends credits the node has, or else leases a batch, or the whole cost where that is more, from a
   * shared budget that has as much and keeps the rest as credits, or else denies and changes nothing.
   */
  predicate Serves(p: Params, s: State, node: nat, cost: nat, s': State, allowed: bool)
    requires node < |s.credits|
  {
    var have := s.credits[node];
    && |s'.credits| == |s.credits| && (forall i :: 0 <= i < |s.credits| && i != node ==> s'.credits[i] == s.credits[i])
    && s'.carried == s.carried && s'.admitted == s.admitted + (if allowed then cost else 0)
    && (allowed <==> have >= cost || (s.l2 >= p.batch && s.l2 >= cost))
    && s'.credits[node] + s'.l2 + (if allowed then cost else 0) == have + s.l2
    && (have >= cost || !allowed ==> s'.l2 == s.l2)
    && (allowed && have < cost ==> var lease := s.l2 - s'.l2; lease >= p.batch && lease >= cost && (lease == p.batch || lease == cost))
  }

  lemma ApplyServes(p: Params, s: State, node: nat, cost: nat)
    requires |s.credits| == p.nodes && node < p.nodes && cost >= 1
    ensures Serves(p, s, node, cost, Apply(p, s, Request(node, cost)), Allowed(p, s, node, cost))
  {
  }

  class LeasedTier {
    const params: Params
    var l2: nat
    var credits: seq<nat>
    ghost var admitted: nat
    ghost var carried: nat

    ghost function Now(): State
      reads this
    {
      State(l2, credits, admitted, carried)
    }

    ghost predicate Valid()
      reads this
    {
      Inv(params, Now())
    }

    constructor (params: Params)
      requires params.Valid()
      ensures Valid() && this.params == params && Now() == Initial(params)
    {
      InitialInv(params);
      this.params := params;
      l2, credits, admitted, carried := params.limit, Zeros(params.nodes), 0, 0;
    }

    /** The leased check: spend local credits, or lease from the shared budget, or surface its denial. */
    method Check(node: nat, cost: nat) returns (allowed: bool)
      requires Valid() && node < params.nodes && cost >= 1
      modifies this
      ensures Valid() && Now() == Apply(params, old(Now()), Request(node, cost))
      ensures Serves(params, old(Now()), node, cost, Now(), allowed) && admitted <= params.Bound()
    {
      ApplyServes(params, Now(), node, cost);
      StepKeepsInv(params, Now(), Request(node, cost));
      var have := credits[node];
      if have >= cost {
        credits := credits[node := have - cost];
        admitted := admitted + cost;
        return true;
      }
      var leaseAmount := if params.batch > cost then params.batch else cost;
      if l2 >= leaseAmount {
        l2 := l2 - leaseAmount;
        credits := credits[node := have + leaseAmount - cost];
        admitted := admitted + cost;
        return true;
      }
      return false;
    }

    /** The shared window rolls over. */
    method RollWindow()
      requires Valid()
      modifies this
      ensures Valid() && Now() == Apply(params, old(Now()), Roll)
      ensures l2 == params.limit && admitted == 0 && carried == Sum(credits)
      ensures credits == if params.expire then seq(params.nodes, i => 0) else old(credits)
    {
      StepKeepsInv(params, Now(), Roll);
      l2 := params.limit;
      if params.expire { credits := Zeros(params.nodes); }
      admitted, carried := 0, Sum(credits);
    }
  }
}
