/** OpenFirstAdapter: how one timeout is shared over the adapters that are tried one after another. */
module ConnectTimeout {

  const DEFAULT_TRANSMIT_WAIT := 1000

  /** The share of the adapter to try next, of what is left, with this many adapters still to try. */
  function Share(left: nat, adapters: nat): nat
    requires adapters > 0
  {
    left / adapters
  }

  /** How long OpenConnection may take, given a share: zero is read as the default. */
  function Budget(share: nat): nat {
    if share > 0 then share else DEFAULT_TRANSMIT_WAIT
  }

  /** The shares of the adapters, given how long each attempt takes; the scan stops when no time is left. */
  function Shares(left: nat, took: seq<nat>): seq<nat>
    decreases |took|
  {
    if took == [] || left == 0 then []
    else
      var rest := if took[0] >= left then 0 else left - took[0];
      [Share(left, |took|)] + Shares(rest, took[1..])
  }

  function Sum(xs: seq<nat>): nat {
    if xs == [] then 0 else xs[0] + Sum(xs[1..])
  }

  lemma MulMonotone(d: nat, a: nat, b: nat)
    ensures a <= b ==> d * a <= d * b
  {
    if a <= b {
      assert d * b == d * a + d * (b - a);
    }
  }

  lemma DivAtLeast(x: nat, d: nat, q: nat)
    requires d > 0 && x >= d * q
    ensures x / d >= q
  {
    assert x < d * (x / d + 1);
    MulMonotone(d, x / d + 1, q);
  }

  lemma ShareLeavesEnough(left: nat, n: nat, took: nat)
    requires n > 0 && left >= n && took <= left / n
    ensures left - took >= n - 1
    ensures n > 1 ==> (left - took) / (n - 1) >= left / n >= 1
  {
    var q := left / n;
    DivAtLeast(left, n, 1);
    assert left >= n * q == (n - 1) * q + q;
    MulMonotone(n - 1, 1, q);
    if n > 1 {
      DivAtLeast(left - took, n - 1, q);
    }
  }

  /**
   With at least a millisecond per adapter, and attempts that keep to their shares: every adapter is
   tried, no share is zero, shares never get smaller, and all attempts together keep to the timeout.
   */
  lemma {:induction false} SharesAreFair(left: nat, took: seq<nat>)
    requires left >= |took|
    requires forall i :: 0 <= i < |took| && i < |Shares(left, took)| ==> took[i] <= Shares(left, took)[i]
    ensures |Shares(left, took)| == |took|
    ensures forall i :: 0 <= i < |took| ==> Shares(left, took)[i] > 0
    ensures forall i, j :: 0 <= i <= j < |took| ==> Shares(left, took)[i] <= Shares(left, took)[j]
    ensures Sum(took) <= left
    decreases |took|
  {
    if took != [] {
      var rest := left - took[0];
      var shares := Shares(left, took);
      assert shares[0] == Share(left, |took|) && took[0] <= shares[0];
      ShareLeavesEnough(left, |took|, took[0]);
      assert shares[1..] == Shares(rest, took[1..]);
      SharesAreFair(rest, took[1..]);
      if |took| > 1 {
        assert shares[1] == Share(rest, |took| - 1) >= shares[0];
      }
    }
  }

  /** The condition is exact: with less, already the first share is zero, and read as the default. */
  lemma FirstShareIsZero(left: nat, took: seq<nat>)
    requires left > 0 && took != []
    ensures Shares(left, took)[0] == 0 <==> left < |took|
    ensures Budget(Shares(left, took)[0]) == if left < |took| then 1000 else Shares(left, took)[0]
  {
    if left >= |took| {
      DivAtLeast(left, |took|, 1);
    }
  }

  lemma SharesStep(left: nat, took: seq<nat>, rest: seq<nat>)
    requires took != [] && left > 0 && rest == took[1..]
    ensures Shares(left, took) ==
            [Share(left, |took|)] + Shares(if took[0] >= left then 0 else left - took[0], rest)
  {
  }

  lemma QuotientIsUnique(x: nat, d: nat, p: nat, q: nat)
    requires p * d <= x < (p + 1) * d && q * d <= x < (q + 1) * d
    ensures p == q
  {
    MulMonotone(d, p + 1, q);
    MulMonotone(d, q + 1, p);
  }

  /**
   Which adapters are tried, and how long each may take: as long as the attempts before it left some
   time, and an equal part of that time, rounded down, among the adapters still to try.
   */
  lemma {:induction false} EveryShare(left: nat, took: seq<nat>, i: nat)
    requires i <= |took|
    ensures i < |Shares(left, took)| <==> i < |took| && Sum(took[..i]) < left
    ensures i < |Shares(left, took)| ==>
              var share, rest, adapters := Shares(left, took)[i], left - Sum(took[..i]), |took| - i;
              share * adapters <= rest < (share + 1) * adapters
    decreases |took|
  {
    if i == 0 {
      if took != [] && left > 0 {
        assert Shares(left, took)[0] == left / |took|;
      }
    } else {
      assert took[..i][1..] == took[1..][..i - 1];
      if took[0] < left {
        EveryShare(left - took[0], took[1..], i - 1);
        SharesStep(left, took, took[1..]);
      }
    }
  }

  /** The last adapter gets all that is left. */
  lemma LastShare(left: nat, took: nat)
    requires left > 0
    ensures Shares(left, [took]) == [left]
  {
    EveryShare(left, [took], 0);
    EveryShare(left, [took], 1);
  }

  lemma NextQuotient(left: nat, n: nat, q: nat) returns (q': nat)
    requires n > 1 && q * n <= left < (q + 1) * n
    ensures q <= left && q <= q' <= q + 1
    ensures q' * (n - 1) <= left - q < (q' + 1) * (n - 1)
    ensures q' == q + 1 ==> left - q == q' * (n - 1)
    ensures left == q * n ==> q' == q && left - q == q' * (n - 1)
  {
    assert q * n == q * (n - 1) + q;
    assert (q + 1) * n == (q + 1) * (n - 1) + q + 1;
    assert (q + 2) * (n - 1) == (q + 1) * (n - 1) + n - 1;
    MulMonotone(n - 1, 0, q);
    q' := if left - q < (q + 1) * (n - 1) then q else q + 1;
  }

  lemma FirstShare(left: nat, took: seq<nat>, q: nat)
    requires took != [] && left > 0 && q * |took| <= left < (q + 1) * |took|
    ensures Shares(left, took)[0] == q
  {
    EveryShare(left, took, 0);
    assert took[..0] == [];
    QuotientIsUnique(left, |took|, Shares(left, took)[0], q);
  }

  /**
   When every attempt takes exactly its share, the whole timeout is given out, in shares that differ by
   at most a millisecond, and in equal ones if that is possible.
   */
  lemma {:induction false} WholeTimeout(left: nat, took: seq<nat>, q: nat)
    requires took != [] && Shares(left, took) == took
    requires q * |took| <= left < (q + 1) * |took|
    ensures Sum(took) == left
    ensures forall i :: 0 <= i < |took| ==> q <= took[i] <= q + 1
    ensures left == q * |took| ==> forall i :: 0 <= i < |took| ==> took[i] == q
    decreases |took|
  {
    var n, rest := |took|, took[1..];
    FirstShare(left, took, q);
    assert took[0] == q;
    if n > 1 {
      var q' := NextQuotient(left, n, q);
      assert Shares(left, took)[1..] == Shares(left - q, rest);
      WholeTimeout(left - q, rest, q');
      assert forall i :: 1 <= i < n ==> took[i] == rest[i - 1];
    }
  }

  /**
   OpenFirstAdapter. The time each attempt takes, and whether it opens the adapter, are arguments.
   Returns the shares that were given out, and which adapter is open, or -1.
   */
  method OpenFirstAdapter(timeout: nat, took: seq<nat>, opens: seq<bool>) returns (shares: seq<nat>, winner: int)
    requires |took| == |opens|
    ensures -1 <= winner < |took| && |shares| <= |took|
    ensures winner >= 0 ==> opens[winner] && |shares| == winner + 1 && (forall i :: 0 <= i < winner ==> !opens[i])
    ensures timeout > 0 ==> shares <= Shares(timeout, took)
    ensures timeout > 0 && winner < 0 ==>
            shares == Shares(timeout, took) && (forall i :: 0 <= i < |shares| ==> !opens[i])
    ensures timeout == 0 ==> forall i :: 0 <= i < |shares| ==> shares[i] == 0
    ensures timeout == 0 && winner < 0 ==> |shares| == |took|
  {
    shares := [];
    var left := timeout;
    var i := 0;
    while i < |took|
      invariant 0 <= i <= |took| && |shares| == i
      invariant forall j :: 0 <= j < i ==> !opens[j]
      invariant timeout > 0 ==> shares + Shares(left, took[i..]) == Shares(timeout, took)
      invariant timeout == 0 ==> forall j :: 0 <= j < i ==> shares[j] == 0
    {
      ghost var later := took[i..];
      assert later[0] == took[i] && later[1..] == took[i + 1..];
      var share := 0;
      if timeout > 0 {
        if left == 0 {
          return shares, -1;
        }
        share := Share(left, |took| - i);
        SharesStep(left, later, took[i + 1..]);
      }
      ghost var given := shares;
      shares := shares + [share];
      left := if took[i] >= left then 0 else left - took[i];
      assert timeout > 0 ==> shares + Shares(left, took[i + 1..]) == given + ([share] + Shares(left, took[i + 1..]));
      if opens[i] {
        return shares, i;
      }
      i := i + 1;
    }
    return shares, -1;
  }
}
