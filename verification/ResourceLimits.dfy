/** Account limits: new limits are kept as pending records over the actual ones until the end of the block,
    when they replace them and the chain-wide totals follow. */
module ResourceLimits {
  import opened MapSum

  const MAX_UINT64: nat := 0xFFFF_FFFF_FFFF_FFFF

  type Account = nat

  datatype Resource = Ram | Net | Cpu

  /** The limits of an account; a negative limit means unlimited. */
  datatype Limits = Limits(ram: int, net: int, cpu: int) {
    function Of(r: Resource): int {
      match r
      case Ram => ram
      case Net => net
      case Cpu => cpu
    }
  }

  function Positive(x: int): nat {
    if x > 0 then x else 0
  }

  /** What each account contributes to the total of a resource. */
  ghost function Shares(m: map<Account, Limits>, r: Resource): map<Account, int> {
    map a | a in m :: Positive(m[a].Of(r))
  }

  ghost function Total(m: map<Account, Limits>, r: Resource): int {
    Sum(Shares(m, r))
  }

  /** The limits in force: the pending ones, else the actual ones, else those of a blank record. */
  function InForce(pending: map<Account, Limits>, actual: map<Account, Limits>, a: Account): Limits {
    if a in pending then pending[a] else if a in actual then actual[a] else Limits(0, 0, 0)
  }

  lemma TotalUpdate(m: map<Account, Limits>, a: Account, l: Limits, r: Resource)
    requires a in m
    ensures Total(m[a := l], r) == Total(m, r) - Positive(m[a].Of(r)) + Positive(l.Of(r))
    ensures 0 <= Positive(m[a].Of(r)) <= Total(m, r)
  {
    assert Shares(m[a := l], r) == Shares(m, r)[a := Positive(l.Of(r))];
    SumUpdate(Shares(m, r), a, Positive(l.Of(r)));
    SumBound(Shares(m, r), a);
  }

  lemma TotalTakeOut(m: map<Account, Limits>, a: Account, r: Resource)
    requires a in m
    ensures Total(m - {a}, r) == Total(m, r) - Positive(m[a].Of(r))
    ensures Positive(m[a].Of(r)) <= Total(m, r)
  {
    assert Shares(m - {a}, r) == Shares(m, r) - {a};
    SumDrop(Shares(m, r), a);
    SumBound(Shares(m, r), a);
  }

  /** One pending record made actual. */
  lemma ProcessTotals(actual: map<Account, Limits>, pending: map<Account, Limits>, a: Account)
    requires a in pending && a in actual
    ensures forall r :: Total(actual[a := pending[a]], r) ==
                        Total(actual, r) - Positive(actual[a].Of(r)) + Positive(pending[a].Of(r))
    ensures forall r :: Total(pending - {a}, r) == Total(pending, r) - Positive(pending[a].Of(r))
    ensures forall r :: Positive(actual[a].Of(r)) <= Total(actual, r) && Positive(pending[a].Of(r)) <= Total(pending, r)
  {
    forall r
      ensures Total(actual[a := pending[a]], r) ==
              Total(actual, r) - Positive(actual[a].Of(r)) + Positive(pending[a].Of(r))
      ensures Total(pending - {a}, r) == Total(pending, r) - Positive(pending[a].Of(r))
      ensures Positive(actual[a].Of(r)) <= Total(actual, r) && Positive(pending[a].Of(r)) <= Total(pending, r)
    {
      TotalUpdate(actual, a, pending[a], r);
      TotalTakeOut(pending, a, r);
    }
  }

  /** The actual limits when the pending limits of the accounts up to `a` have been promoted. */
  function Promoted(actual: map<Account, Limits>, pending: map<Account, Limits>, a: Account): map<Account, Limits> {
    map b | b in actual :: if b in pending && b <= a then pending[b] else actual[b]
  }

  /** No total overflows. */
  ghost predicate InRange(m: map<Account, Limits>) {
    forall r :: Total(m, r) <= MAX_UINT64
  }

  /** Moving the totals `t` from the limits `was` to `now` overflows none of them. */
  ghost predicate ShiftFits(t: Limits, was: Limits, now: Limits) {
    forall r :: t.Of(r) - Positive(was.Of(r)) + Positive(now.Of(r)) <= MAX_UINT64
  }

  lemma PromoteFits(actual: map<Account, Limits>, pending: map<Account, Limits>, a: Account, t: Limits)
    requires a in pending && a in actual && forall r :: t.Of(r) == Total(actual, r)
    ensures InRange(actual[a := pending[a]]) <==> ShiftFits(t, actual[a], pending[a])
    ensures !ShiftFits(t, actual[a], pending[a]) ==> exists r :: Total(actual, r) + Total(pending, r) > MAX_UINT64
  {
    ProcessTotals(actual, pending, a);
    forall r ensures Total(actual[a := pending[a]], r) == t.Of(r) - Positive(actual[a].Of(r)) + Positive(pending[a].Of(r)) {
      assert t.Of(r) == Total(actual, r);
    }
    if !ShiftFits(t, actual[a], pending[a]) {
      var r :| t.Of(r) - Positive(actual[a].Of(r)) + Positive(pending[a].Of(r)) > MAX_UINT64;
      assert Total(actual, r) + Total(pending, r) > MAX_UINT64;
    }
  }

  /** Some first part of the pending limits `pending0` has been promoted. */
  ghost predicate PartWay(actual0: map<Account, Limits>, pending0: map<Account, Limits>,
                          actual: map<Account, Limits>, pending: map<Account, Limits>) {
    && actual.Keys == actual0.Keys && pending.Keys <= pending0.Keys && (forall b :: b in pending ==> pending[b] == pending0[b])
    && (forall b :: b in actual ==> actual[b] == if b in pending0 && b !in pending then pending0[b] else actual0[b])
    && (forall b, c :: b in pending0 && b !in pending && c in pending ==> b < c)
  }

  lemma NextPromoted(actual0: map<Account, Limits>, pending0: map<Account, Limits>,
                     actual: map<Account, Limits>, pending: map<Account, Limits>, a: Account)
    requires PartWay(actual0, pending0, actual, pending) && a in pending && a in actual && forall b :: b in pending ==> a <= b
    ensures actual[a := pending[a]] == Promoted(actual0, pending0, a)
    ensures PartWay(actual0, pending0, actual[a := pending[a]], pending - {a})
  {
  }

  /** Totals that follow one account from its old limits to new ones; limits that are not positive do not count. */
  predicate Moved(t: Limits, was: Limits, now: Limits, t': Limits) {
    && t'.ram == t.ram - (if was.ram > 0 then was.ram else 0) + (if now.ram > 0 then now.ram else 0)
    && t'.net == t.net - (if was.net > 0 then was.net else 0) + (if now.net > 0 then now.net else 0)
    && t'.cpu == t.cpu - (if was.cpu > 0 then was.cpu else 0) + (if now.cpu > 0 then now.cpu else 0)
  }

  lemma OnePromoted(actual0: map<Account, Limits>, pending: map<Account, Limits>, a: Account, actual: map<Account, Limits>,
                    t: Limits, t': Limits)
    requires pending.Keys == {a} && a in actual0 && actual.Keys == actual0.Keys
    requires forall b :: b in actual ==> actual[b] == InForce(pending, actual0, b)
    requires forall r :: t.Of(r) == Total(actual0, r) && t'.Of(r) == Total(actual, r)
    ensures Moved(t, actual0[a], pending[a], t')
  {
    assert actual == actual0[a := pending[a]];
    TotalUpdate(actual0, a, pending[a], Ram);
    TotalUpdate(actual0, a, pending[a], Net);
    TotalUpdate(actual0, a, pending[a], Cpu);
    assert t.Of(Ram) == Total(actual0, Ram) && t'.Of(Ram) == Total(actual, Ram);
    assert t.Of(Net) == Total(actual0, Net) && t'.Of(Net) == Total(actual, Net);
    assert t.Of(Cpu) == Total(actual0, Cpu) && t'.Of(Cpu) == Total(actual, Cpu);
  }

  lemma InForceKept(actual: map<Account, Limits>, pending: map<Account, Limits>, a: Account)
    requires a in pending && a in actual
    ensures forall b :: InForce(pending - {a}, actual[a := pending[a]], b) == InForce(pending, actual, b)
  {
  }

  class Manager {
    var actual: map<Account, Limits>
    var pending: map<Account, Limits>
    var totals: Limits

    /** Each total is the sum of the positive limits, and only known accounts have pending limits. */
    ghost predicate Valid()
      reads this
    {
      && pending.Keys <= actual.Keys
      && (forall r :: 0 <= totals.Of(r) <= MAX_UINT64 && totals.Of(r) == Total(actual, r))
    }

    ghost function Limit(a: Account): Limits
      reads this
    {
      InForce(pending, actual, a)
    }

    constructor ()
      ensures Valid() && actual == map[] && pending == map[]
    {
      actual, pending, totals := map[], map[], Limits(0, 0, 0);
      new;
      forall r ensures Total(actual, r) == 0 { assert Shares(actual, r) == map[]; }
    }

    /** A new account starts without limits. */
    method InitializeAccount(a: Account)
      requires Valid() && a !in actual
      modifies this
      ensures Valid() && actual == old(actual)[a := Limits(-1, -1, -1)]
      ensures pending == old(pending) && totals == old(totals)
    {
      actual := actual[a := Limits(-1, -1, -1)];
      forall r ensures Total(actual, r) == old(Total(actual, r)) {
        assert Shares(actual, r) == old(Shares(actual, r))[a := 0];
        SumUpdate(old(Shares(actual, r)), a, 0);
      }
    }

    /** Records new limits as pending and tells whether they lower the memory limit in force. */
    method SetAccountLimits(a: Account, l: Limits) returns (decreased: bool)
      requires Valid()
      modifies this
      ensures actual == old(actual) && totals == old(totals) && pending == old(pending)[a := l]
      ensures a in actual ==> Valid()
      ensures Limit(a) == l && forall b :: b != a ==> Limit(b) == old(Limit(b))
      ensures decreased <==> l.ram >= 0 && (old(Limit(a)).ram < 0 || l.ram < old(Limit(a)).ram)
    {
      if a !in pending {
        var limits := if a in actual then actual[a] else Limits(0, 0, 0);
        pending := pending[a := limits];
      }
      var found := pending[a];
      decreased := false;
      if l.ram >= 0 {
        decreased := found.ram < 0 || l.ram < found.ram;
      }
      pending := pending[a := l];
    }

    method GetAccountLimits(a: Account) returns (l: Limits)
      ensures l == Limit(a)
      ensures l == if a in pending then pending[a] else if a in actual then actual[a] else Limits(0, 0, 0)
    {
      if a in pending { return pending[a]; }
      if a in actual { return actual[a]; }
      return Limits(0, 0, 0);
    }

    /** Moves a total from an old value to a new one. The total never underflows; `ok` is false when it
        would overflow. */
    static method Shift(total: int, value: int, pendingValue: int) returns (ok: bool, total': int)
      requires 0 <= total <= MAX_UINT64 && Positive(value) <= total
      ensures var moved := total - (if value > 0 then value else 0) + (if pendingValue > 0 then pendingValue else 0);
              (ok <==> moved <= 0xFFFF_FFFF_FFFF_FFFF) && (ok ==> total' == moved)
    {
      total' := total;
      if value > 0 {
        assert total' >= value;
        total' := total' - value;
      }
      if pendingValue > 0 {
        if MAX_UINT64 - total' < pendingValue { return false, total'; }
        total' := total' + pendingValue;
      }
      return true, total';
    }

    /** Moves all three totals. */
    static method ShiftAll(t: Limits, was: Limits, now: Limits) returns (ok: bool, t': Limits)
      requires forall r :: 0 <= t.Of(r) <= MAX_UINT64 && Positive(was.Of(r)) <= t.Of(r)
      ensures ok <==> ShiftFits(t, was, now)
      ensures ok ==> forall r :: t'.Of(r) == t.Of(r) - Positive(was.Of(r)) + Positive(now.Of(r))
    {
      t' := t;
      assert Positive(was.Of(Ram)) <= t.Of(Ram) && Positive(was.Of(Cpu)) <= t.Of(Cpu) && Positive(was.Of(Net)) <= t.Of(Net);
      var ram, cpu, net: int;
      ok, ram := Shift(t.ram, was.ram, now.ram);
      if !ok { assert t.Of(Ram) - Positive(was.Of(Ram)) + Positive(now.Of(Ram)) > MAX_UINT64; return; }
      ok, cpu := Shift(t.cpu, was.cpu, now.cpu);
      if !ok { assert t.Of(Cpu) - Positive(was.Of(Cpu)) + Positive(now.Of(Cpu)) > MAX_UINT64; return; }
      ok, net := Shift(t.net, was.net, now.net);
      if !ok { assert t.Of(Net) - Positive(was.Of(Net)) + Positive(now.Of(Net)) > MAX_UINT64; return; }
      t' := Limits(ram, net, cpu);
    }

    /** Turns all pending limits into actual ones, in the order of the account names. Everybody's limits in
        force stay the same. It fails exactly when, at some account, the limits promoted so far and the rest of
        the actual ones together overflow a total; then the totals are left as they were. That cannot happen
        while the old total and all pending limits together stay in range. */
    method ProcessAccountLimitUpdates() returns (ok: bool)
      requires Valid()
      modifies this
      ensures forall a :: Limit(a) == old(Limit(a))
      ensures ok ==> Valid() && pending == map[]
      ensures ok ==> actual.Keys == old(actual).Keys && forall a :: a in actual ==> actual[a] == old(Limit(a))
      ensures !ok ==> totals == old(totals)
      ensures ok <==> forall a :: a in old(pending) ==> InRange(Promoted(old(actual), old(pending), a))
      ensures (forall r :: old(Total(actual, r)) + old(Total(pending, r)) <= MAX_UINT64) ==> ok
      ensures forall a :: ok && old(pending).Keys == {a} ==>
                var was, now := old(actual)[a], old(pending)[a];
                && totals.ram == old(totals).ram - (if was.ram > 0 then was.ram else 0) + (if now.ram > 0 then now.ram else 0)
                && totals.net == old(totals).net - (if was.net > 0 then was.net else 0) + (if now.net > 0 then now.net else 0)
                && totals.cpu == old(totals).cpu - (if was.cpu > 0 then was.cpu else 0) + (if now.cpu > 0 then now.cpu else 0)
    {
      var t := totals;
      while pending != map[]
        invariant pending.Keys <= actual.Keys == old(actual).Keys && totals == old(totals)
        invariant forall a :: Limit(a) == old(Limit(a))
        invariant forall r :: 0 <= t.Of(r) <= MAX_UINT64 && t.Of(r) == Total(actual, r)
        invariant forall r :: Total(actual, r) + Total(pending, r) <= old(Total(actual, r)) + old(Total(pending, r))
        invariant PartWay(old(actual), old(pending), actual, pending)
        invariant forall a :: a in old(pending) && a !in pending ==> InRange(Promoted(old(actual), old(pending), a))
        decreases pending.Keys
      {
        var a := LeastPending();
        NextPromoted(old(actual), old(pending), actual, pending, a);
        ok, t := Promote(a, t);
        if !ok { return; }
      }
      totals := t;
      ok := true;
      assert forall a :: a in actual ==> actual[a] == Limit(a);
      forall a | old(pending).Keys == {a} ensures Moved(old(totals), old(actual)[a], old(pending)[a], totals) {
        OnePromoted(old(actual), old(pending), a, actual, old(totals), totals);
      }
    }

    /** Makes the pending limits of an account actual, with `t` the totals so far. */
    method Promote(a: Account, t: Limits) returns (ok: bool, t': Limits)
      requires a in pending && pending.Keys <= actual.Keys
      requires forall r :: 0 <= t.Of(r) <= MAX_UINT64 && t.Of(r) == Total(actual, r)
      modifies this`actual, this`pending
      ensures ok <==> InRange(old(actual)[a := old(pending)[a]])
      ensures ok ==> actual == old(actual)[a := old(pending)[a]] && pending == old(pending) - {a}
      ensures !ok ==> actual == old(actual) && pending == old(pending)
      ensures forall a :: Limit(a) == old(Limit(a))
      ensures ok ==> forall r :: 0 <= t'.Of(r) <= MAX_UINT64 && t'.Of(r) == Total(actual, r)
      ensures forall r :: Total(actual, r) + Total(pending, r) <= old(Total(actual, r)) + old(Total(pending, r))
      ensures !ok ==> exists r :: Total(actual, r) + Total(pending, r) > MAX_UINT64
    {
      ProcessTotals(actual, pending, a);
      PromoteFits(actual, pending, a, t);
      ok, t' := ShiftAll(t, actual[a], pending[a]);
      if !ok { return; }
      InForceKept(actual, pending, a);
      actual := actual[a := pending[a]];
      pending := pending - {a};
    }

    /** The first account with pending limits. */
    method LeastPending() returns (a: Account)
      requires pending != map[]
      ensures a in pending && forall b :: b in pending ==> a <= b
    {
      a :| a in pending;
      var rest := pending.Keys - {a};
      while rest != {}
        invariant rest <= pending.Keys && a in pending
        invariant forall b :: b in pending && b !in rest ==> a <= b
        decreases rest
      {
        var b :| b in rest;
        rest := rest - {b};
        if b < a { a := b; }
      }
    }
  }
}
