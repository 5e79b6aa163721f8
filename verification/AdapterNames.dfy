/** AssignAdapterNames: display names for the adapters that were detected, numbered within a type. */
module AdapterNames {

  const P8_EXTERNAL := 0x1
  const P8_DAUGHTERBOARD := 0x2
  const RPI := 0x100
  const LINUX := 0x400

  /** The type of an adapter, and the path to it, which stays the same whatever the order of detection. */
  datatype Adapter = Adapter(kind: int, path: string)

  function BaseName(kind: int): string {
    if kind == P8_EXTERNAL || kind == P8_DAUGHTERBOARD then "USB-CEC Adapter" else "HDMI"
  }

  // ---------- the order of strcmp ----------

  predicate Less(a: string, b: string) {
    b != "" && (a == "" || a[0] < b[0] || (a[0] == b[0] && Less(a[1..], b[1..])))
  }

  lemma {:induction false} LessTotal(a: string, b: string)
    ensures a != b ==> Less(a, b) || Less(b, a)
    ensures !(Less(a, b) && Less(b, a))
    ensures Less(a, b) ==> a != b
  {
    if a != "" && b != "" {
      LessTotal(a[1..], b[1..]);
      assert a == [a[0]] + a[1..] && b == [b[0]] + b[1..];
    }
  }

  lemma {:induction false} LessTransitive(a: string, b: string, c: string)
    requires Less(a, b) && Less(b, c)
    ensures Less(a, c)
  {
    if a != "" && a[0] == b[0] == c[0] {
      LessTransitive(a[1..], b[1..], c[1..]);
    }
  }

  /** The texts agree on n characters, and there a ends or its next character is less. */
  predicate LessAt(a: string, b: string, n: nat) {
    n <= |a| && n < |b| && a[..n] == b[..n] && (n == |a| || a[n] < b[n])
  }

  lemma {:induction false} FirstDifference(a: string, b: string) returns (n: nat)
    requires Less(a, b)
    ensures LessAt(a, b, n)
  {
    if a == "" || a[0] < b[0] {
      n := 0;
    } else {
      var m := FirstDifference(a[1..], b[1..]);
      n := m + 1;
      assert a[..n] == [a[0]] + a[1..][..m] && b[..n] == [b[0]] + b[1..][..m];
    }
  }

  lemma {:induction false} DifferenceDecides(a: string, b: string, n: nat)
    requires LessAt(a, b, n)
    ensures Less(a, b)
    decreases n
  {
    if n > 0 {
      assert a[0] == a[..n][0] == b[..n][0] == b[0];
      assert a[1..][..n - 1] == a[..n][1..] && b[1..][..n - 1] == b[..n][1..];
      DifferenceDecides(a[1..], b[1..], n - 1);
    }
  }

  /** The first character that differs decides, and a proper prefix is less. */
  lemma LessIs(a: string, b: string)
    ensures Less(a, b) <==> exists n: nat :: LessAt(a, b, n)
  {
    if Less(a, b) {
      var n := FirstDifference(a, b);
    }
    if n: nat :| LessAt(a, b, n) {
      DifferenceDecides(a, b, n);
    }
  }

  // ---------- decimal numbers ----------

  function Decimal(n: nat): string {
    (if n < 10 then "" else Decimal(n / 10)) + ['0' + (n % 10) as char]
  }

  function DecimalValue(s: string): int {
    if s == "" then 0 else DecimalValue(s[..|s| - 1]) * 10 + (s[|s| - 1] as int - '0' as int)
  }

  lemma {:induction false} DecimalReadsBack(n: nat)
    ensures DecimalValue(Decimal(n)) == n && Decimal(n) != ""
  {
    var last := ['0' + (n % 10) as char];
    var front := if n < 10 then "" else Decimal(n / 10);
    assert (front + last)[..|front|] == front;
    if n >= 10 {
      DecimalReadsBack(n / 10);
    }
  }

  // ---------- names ----------

  function Peers(all: set<Adapter>, a: Adapter): set<Adapter> {
    set b | b in all && b.kind == a.kind
  }

  function Before(all: set<Adapter>, a: Adapter): set<Adapter> {
    set b | b in all && b.kind == a.kind && Less(b.path, a.path)
  }

  function Numbered(base: string, n: nat): string {
    base + " " + Decimal(n)
  }

  /** The name of an adapter says how many of its type there are before it, and nothing about the order of the list. */
  function Name(all: set<Adapter>, a: Adapter): string {
    if |Peers(all, a)| == 1 then BaseName(a.kind) else Numbered(BaseName(a.kind), |Before(all, a)| + 1)
  }

  ghost predicate DistinctPaths(all: set<Adapter>) {
    forall a, b :: a in all && b in all && a.path == b.path ==> a == b
  }

  lemma NumberedInjective(base: string, m: nat, n: nat)
    ensures Numbered(base, m) != base
    ensures Numbered(base, m) == Numbered(base, n) ==> m == n
  {
    DecimalReadsBack(m);
    DecimalReadsBack(n);
    assert Numbered(base, m)[|base| + 1..] == Decimal(m);
    assert Numbered(base, n)[|base| + 1..] == Decimal(n);
    assert |Numbered(base, m)| > |base|;
  }

  lemma Larger<T>(s: set<T>, t: set<T>, x: T)
    requires s <= t && x in t && x !in s
    ensures |s| < |t|
  {
    assert t == s + (t - s) && x in t - s;
    assert |t| == |s| + |t - s|;
  }

  lemma BeforeGrows(all: set<Adapter>, a: Adapter, b: Adapter)
    requires a in all && a.kind == b.kind && Less(a.path, b.path)
    ensures |Before(all, a)| < |Before(all, b)|
  {
    LessTotal(a.path, a.path);
    forall x | x in Before(all, a)
      ensures x in Before(all, b)
    {
      LessTransitive(x.path, a.path, b.path);
    }
    assert a in Before(all, b) - Before(all, a);
    Larger(Before(all, a), Before(all, b), a);
  }

  /** One adapter of a type has the bare name, and two are numbered in the order of their paths. */
  lemma OneOrTwo(a: Adapter, b: Adapter)
    requires a.kind == b.kind && Less(a.path, b.path)
    ensures var base := if a.kind == 1 || a.kind == 2 then "USB-CEC Adapter" else "HDMI";
            && Name({a}, a) == base && Name({a, b}, a) == base + " 1" && Name({a, b}, b) == base + " 2"
  {
    LessTotal(a.path, b.path);
    LessTotal(a.path, a.path);
    LessTotal(b.path, b.path);
    assert Peers({a}, a) == {a} && Peers({a, b}, a) == {a, b} && Peers({a, b}, b) == {a, b};
    assert Before({a, b}, a) == {} && Before({a, b}, b) == {a};
    assert a != b && |{a, b}| == 2;
  }

  /** Adapters of one type never share a name. */
  lemma NamesDifferWithinType(all: set<Adapter>, a: Adapter, b: Adapter)
    requires a in all && b in all && a != b && a.kind == b.kind && DistinctPaths(all)
    ensures Name(all, a) != Name(all, b)
  {
    LessTotal(a.path, b.path);
    if Less(a.path, b.path) {
      BeforeGrows(all, a, b);
    } else {
      BeforeGrows(all, b, a);
    }
    assert Peers(all, a) == Peers(all, b);
    Larger({a}, Peers(all, a), b);
    NumberedInjective(BaseName(a.kind), |Before(all, a)| + 1, |Before(all, b)| + 1);
  }

  /** Adapters of two types share a name exactly when both are alone, or both have the same number. */
  lemma NamesAcrossTypes(all: set<Adapter>, a: Adapter, b: Adapter)
    requires a in all && b in all && BaseName(a.kind) == BaseName(b.kind)
    ensures Name(all, a) == Name(all, b) <==>
            (|Peers(all, a)| == 1 <==> |Peers(all, b)| == 1)
            && (|Peers(all, a)| != 1 ==> |Before(all, a)| == |Before(all, b)|)
  {
    NumberedInjective(BaseName(a.kind), |Before(all, a)| + 1, |Before(all, b)| + 1);
    NumberedInjective(BaseName(a.kind), |Before(all, b)| + 1, 0);
  }

  /** The adapter with number one. */
  lemma {:induction false} First(all: set<Adapter>, a: Adapter) returns (f: Adapter)
    requires a in all
    ensures f in all && f.kind == a.kind && Before(all, f) == {}
    decreases |Before(all, a)|
  {
    if Before(all, a) == {} {
      f := a;
    } else {
      var b :| b in Before(all, a);
      BeforeGrows(all, b, a);
      f := First(all, b);
    }
  }

  /**
   Two types of one base name, whatever their adapters: some names collide exactly when both types
   have a single adapter, or both have several.
   */
  lemma TypesCollide(all: set<Adapter>, a: Adapter, b: Adapter)
    requires a in all && b in all && a.kind != b.kind && BaseName(a.kind) == BaseName(b.kind)
    ensures (exists x, y :: x in Peers(all, a) && y in Peers(all, b) && Name(all, x) == Name(all, y)) <==>
            (|Peers(all, a)| == 1 <==> |Peers(all, b)| == 1)
  {
    forall x, y | x in Peers(all, a) && y in Peers(all, b) && Name(all, x) == Name(all, y)
      ensures |Peers(all, a)| == 1 <==> |Peers(all, b)| == 1
    {
      assert Peers(all, x) == Peers(all, a) && Peers(all, y) == Peers(all, b);
      NamesAcrossTypes(all, x, y);
    }
    if |Peers(all, a)| == 1 <==> |Peers(all, b)| == 1 {
      var x := First(all, a);
      var y := First(all, b);
      assert Peers(all, x) == Peers(all, a) && Peers(all, y) == Peers(all, b);
      NamesAcrossTypes(all, x, y);
      assert x in Peers(all, a) && y in Peers(all, b) && Name(all, x) == Name(all, y);
    }
  }

  /** A host with a CEC device of its own and one of the kernel has two adapters called "HDMI". */
  lemma TwoAdaptersOneName()
    ensures var a, b := Adapter(RPI, "Raspberry Pi"), Adapter(LINUX, "/dev/cec0");
            Name({a, b}, a) == Name({a, b}, b) == "HDMI"
  {
    var a, b := Adapter(RPI, "Raspberry Pi"), Adapter(LINUX, "/dev/cec0");
    assert Peers({a, b}, a) == {a} && Peers({a, b}, b) == {b};
  }

  // ---------- the detected list ----------

  function Elements(list: seq<Adapter>): set<Adapter> {
    set a | a in list
  }

  ghost predicate DistinctPathsIn(list: seq<Adapter>) {
    forall i, j :: 0 <= i < j < |list| ==> list[i].path != list[j].path
  }

  ghost predicate Within(r: seq<nat>, n: nat) {
    forall p :: 0 <= p < |r| ==> r[p] < n
  }

  ghost predicate AllDifferent<T(!new)>(s: seq<T>) {
    forall p, q :: 0 <= p < q < |s| ==> s[p] != s[q]
  }

  /** Exactly the indices of the adapters of one type, each once. */
  ghost predicate Covers(list: seq<Adapter>, kind: int, n: nat, r: seq<nat>)
    requires n <= |list|
  {
    && Within(r, n) && AllDifferent(r)
    && (forall p :: 0 <= p < |r| ==> list[r[p]].kind == kind)
    && (forall i: nat :: i < n && list[i].kind == kind ==> i in r)
  }

  ghost predicate Ordered(list: seq<Adapter>, r: seq<nat>)
    requires Within(r, |list|)
  {
    forall p, q :: 0 <= p < q < |r| ==> !Less(list[r[q]].path, list[r[p]].path)
  }

  /** All that is known of an order after sorting: the indices of the type, in path order. */
  ghost predicate OrderOf(list: seq<Adapter>, kind: int, r: seq<nat>) {
    Covers(list, kind, |list|, r) && Ordered(list, r)
  }

  lemma {:induction false} CountsOnce<T(!new)>(s: seq<T>, x: T)
    requires AllDifferent(s)
    ensures multiset(s)[x] <= 1
  {
    if s != [] {
      var n := |s| - 1;
      CountsOnce(s[..n], x);
      assert s == s[..n] + [s[n]];
      assert s[n] !in s[..n];
    }
  }

  /** A permutation of different elements has different elements. */
  lemma PermutationDiffers<T(!new)>(s: seq<T>, r: seq<T>)
    requires AllDifferent(s) && multiset(r) == multiset(s)
    ensures AllDifferent(r)
  {
    forall p, q | 0 <= p < q < |r|
      ensures r[p] != r[q]
    {
      CountsOnce(s, r[q]);
      assert r == r[..q] + r[q..];
      assert r[..q][p] in multiset(r[..q]) && r[q..][0] in multiset(r[q..]);
    }
  }

  lemma PermutationCovers(list: seq<Adapter>, kind: int, indices: seq<nat>, r: seq<nat>)
    requires Covers(list, kind, |list|, indices) && multiset(r) == multiset(indices)
    ensures Covers(list, kind, |list|, r)
  {
    forall p | 0 <= p < |r|
      ensures r[p] < |list| && list[r[p]].kind == kind
    {
      assert r[p] in multiset(indices);
    }
    PermutationDiffers(indices, r);
    forall i: nat | i < |list| && list[i].kind == kind
      ensures i in r
    {
      assert i in multiset(indices);
    }
  }

  function GroupName(kind: int, size: nat, p: nat): string {
    if size == 1 then BaseName(kind) else Numbered(BaseName(kind), p + 1)
  }

  ghost predicate Named(names: seq<string>, kind: int, r: seq<nat>, n: nat)
    requires n <= |r| && Within(r, |names|)
  {
    forall p :: 0 <= p < n ==> names[r[p]] == GroupName(kind, |r|, p)
  }

  ghost function Picked(list: seq<Adapter>, r: seq<nat>, n: nat): set<Adapter>
    requires Within(r, |list|) && n <= |r|
  {
    if n == 0 then {} else Picked(list, r, n - 1) + {list[r[n - 1]]}
  }

  lemma {:induction false} PickedAt(list: seq<Adapter>, r: seq<nat>, n: nat, b: Adapter) returns (p: nat)
    requires Within(r, |list|) && n <= |r| && b in Picked(list, r, n)
    ensures p < n && list[r[p]] == b
  {
    if b == list[r[n - 1]] {
      p := n - 1;
    } else {
      p := PickedAt(list, r, n - 1, b);
    }
  }

  lemma {:induction false} PickedHas(list: seq<Adapter>, r: seq<nat>, n: nat, p: nat)
    requires Within(r, |list|) && p < n <= |r|
    ensures list[r[p]] in Picked(list, r, n)
  {
    if p < n - 1 {
      PickedHas(list, r, n - 1, p);
    }
  }

  lemma {:induction false} PickedCount(list: seq<Adapter>, r: seq<nat>, n: nat)
    requires DistinctPathsIn(list) && Within(r, |list|) && AllDifferent(r) && n <= |r|
    ensures |Picked(list, r, n)| == n
  {
    if n > 0 {
      PickedCount(list, r, n - 1);
      if list[r[n - 1]] in Picked(list, r, n - 1) {
        var p := PickedAt(list, r, n - 1, list[r[n - 1]]);
        assert false;
      }
    }
  }

  lemma IndexIn(list: seq<Adapter>, kind: int, r: seq<nat>, b: Adapter) returns (q: nat)
    requires OrderOf(list, kind, r) && b in list && b.kind == kind
    ensures q < |r| && list[r[q]] == b
  {
    var i :| 0 <= i < |list| && list[i] == b;
    assert i in r;
    q :| 0 <= q < |r| && r[q] == i;
  }

  lemma PeersArePicked(list: seq<Adapter>, kind: int, r: seq<nat>, a: Adapter)
    requires OrderOf(list, kind, r) && a.kind == kind
    ensures Peers(Elements(list), a) == Picked(list, r, |r|)
  {
    forall b | b in Peers(Elements(list), a)
      ensures b in Picked(list, r, |r|)
    {
      var q := IndexIn(list, kind, r, b);
      PickedHas(list, r, |r|, q);
    }
    forall b | b in Picked(list, r, |r|)
      ensures b in Peers(Elements(list), a)
    {
      var q := PickedAt(list, r, |r|, b);
    }
  }

  /** Sorted paths, if they are distinct, grow strictly. */
  lemma LessBefore(list: seq<Adapter>, r: seq<nat>, p: nat, q: nat)
    requires DistinctPathsIn(list) && Within(r, |list|) && AllDifferent(r) && Ordered(list, r) && p < |r| && q < |r|
    ensures q < p <==> Less(list[r[q]].path, list[r[p]].path)
  {
    LessTotal(list[r[q]].path, list[r[p]].path);
    if q != p {
      assert r[q] != r[p];
    }
  }

  lemma BeforeArePicked(list: seq<Adapter>, kind: int, r: seq<nat>, p: nat)
    requires DistinctPathsIn(list) && OrderOf(list, kind, r) && p < |r|
    ensures Before(Elements(list), list[r[p]]) == Picked(list, r, p)
  {
    var all, a := Elements(list), list[r[p]];
    forall b | b in Before(all, a)
      ensures b in Picked(list, r, p)
    {
      var q := IndexIn(list, kind, r, b);
      LessBefore(list, r, p, q);
      PickedHas(list, r, p, q);
    }
    forall b | b in Picked(list, r, p)
      ensures b in Before(all, a)
    {
      var q := PickedAt(list, r, p, b);
      LessBefore(list, r, p, q);
    }
  }

  /** With distinct paths, the position after sorting is the number of adapters of the type before it. */
  lemma GroupNameIsName(list: seq<Adapter>, kind: int, r: seq<nat>, p: nat)
    requires DistinctPathsIn(list) && OrderOf(list, kind, r) && p < |r|
    ensures GroupName(kind, |r|, p) == Name(Elements(list), list[r[p]])
  {
    PeersArePicked(list, kind, r, list[r[p]]);
    BeforeArePicked(list, kind, r, p);
    PickedCount(list, r, |r|);
    PickedCount(list, r, p);
  }

  /** An entry of the map from types to indices. The map is a list of entries, in no special order. */
  datatype Group = Group(kind: int, indices: seq<nat>)

  ghost predicate HasGroup(groups: seq<Group>, kind: int) {
    exists g :: 0 <= g < |groups| && groups[g].kind == kind
  }

  /** Every type among the first n adapters has one group, and that holds exactly its indices. */
  ghost predicate Grouped(list: seq<Adapter>, n: nat, groups: seq<Group>)
    requires n <= |list|
  {
    && (forall g :: 0 <= g < |groups| ==> Covers(list, groups[g].kind, n, groups[g].indices))
    && (forall g, h :: 0 <= g < h < |groups| ==> groups[g].kind != groups[h].kind)
    && (forall i :: 0 <= i < n ==> HasGroup(groups, list[i].kind))
  }

  /** The groups after index n went to group g, or to a new one. */
  function Pushed(groups: seq<Group>, g: nat, kind: int, n: nat): seq<Group>
    requires g <= |groups|
  {
    if g < |groups| then groups[g := Group(kind, groups[g].indices + [n])] else groups + [Group(kind, [n])]
  }

  lemma CoversStep(list: seq<Adapter>, kind: int, n: nat, r: seq<nat>)
    requires n < |list| && Covers(list, kind, n, r)
    ensures Covers(list, kind, n + 1, if list[n].kind == kind then r + [n] else r)
  {
    if list[n].kind == kind {
      var r' := r + [n];
      assert r'[|r|] == n;
      forall p | 0 <= p < |r|
        ensures r'[p] == r[p] < n
      {
      }
      forall i: nat | i < n + 1 && list[i].kind == kind
        ensures i in r'
      {
        assert i < n ==> i in r;
      }
    }
  }

  lemma PushKeepsGrouped(list: seq<Adapter>, n: nat, groups: seq<Group>, g: nat)
    requires n < |list| && Grouped(list, n, groups) && g <= |groups|
    requires if g < |groups| then groups[g].kind == list[n].kind else !HasGroup(groups, list[n].kind)
    ensures Grouped(list, n + 1, Pushed(groups, g, list[n].kind, n))
  {
    var groups' := Pushed(groups, g, list[n].kind, n);
    forall h | 0 <= h < |groups'|
      ensures Covers(list, groups'[h].kind, n + 1, groups'[h].indices)
    {
      if h < |groups| {
        CoversStep(list, groups[h].kind, n, groups[h].indices);
      }
    }
    assert groups'[g].kind == list[n].kind;
    forall i | 0 <= i < n + 1
      ensures HasGroup(groups', list[i].kind)
    {
      if i < n {
        var h :| 0 <= h < |groups| && groups[h].kind == list[i].kind;
        assert groups'[h].kind == list[i].kind;
      }
    }
  }

  /** The group of a type, or the place of a new one. */
  method FindGroup(groups: seq<Group>, kind: int) returns (g: nat)
    ensures g <= |groups|
    ensures if g < |groups| then groups[g].kind == kind else !HasGroup(groups, kind)
  {
    g := 0;
    while g < |groups| && groups[g].kind != kind
      invariant 0 <= g <= |groups|
      invariant forall h :: 0 <= h < g ==> groups[h].kind != kind
    {
      g := g + 1;
    }
  }

  method GroupByType(list: seq<Adapter>) returns (groups: seq<Group>)
    ensures Grouped(list, |list|, groups)
  {
    groups := [];
    for i := 0 to |list|
      invariant Grouped(list, i, groups)
    {
      var g := FindGroup(groups, list[i].kind);
      PushKeepsGrouped(list, i, groups, g);
      groups := Pushed(groups, g, list[i].kind, i);
    }
  }

  lemma NotLessTransitive(a: string, b: string, c: string)
    requires Less(a, b) && !Less(c, b)
    ensures Less(a, c)
  {
    LessTotal(b, c);
    if b != c {
      LessTransitive(a, b, c);
    }
  }

  lemma InsertKeepsOrder(list: seq<Adapter>, r: seq<nat>, k: nat, x: nat)
    requires Within(r, |list|) && Ordered(list, r) && k <= |r| && x < |list|
    requires forall p :: k <= p < |r| ==> Less(list[x].path, list[r[p]].path)
    requires k > 0 ==> !Less(list[x].path, list[r[k - 1]].path)
    ensures Within(r[..k] + [x] + r[k..], |list|) && Ordered(list, r[..k] + [x] + r[k..])
  {
    forall p | 0 <= p < k
      ensures !Less(list[x].path, list[r[p]].path)
    {
      if p < k - 1 && Less(list[x].path, list[r[p]].path) {
        NotLessTransitive(list[x].path, list[r[p]].path, list[r[k - 1]].path);
      }
    }
    forall p | k <= p < |r|
      ensures !Less(list[r[p]].path, list[x].path)
    {
      LessTotal(list[x].path, list[r[p]].path);
    }
  }

  method Insert(list: seq<Adapter>, r: seq<nat>, x: nat) returns (r': seq<nat>)
    requires Within(r, |list|) && Ordered(list, r) && x < |list|
    ensures multiset(r') == multiset(r) + multiset{x}
    ensures Within(r', |list|) && Ordered(list, r')
  {
    var k := |r|;
    while k > 0 && Less(list[x].path, list[r[k - 1]].path)
      invariant 0 <= k <= |r|
      invariant forall p :: k <= p < |r| ==> Less(list[x].path, list[r[p]].path)
    {
      k := k - 1;
    }
    InsertKeepsOrder(list, r, k, x);
    assert r == r[..k] + r[k..];
    r' := r[..k] + [x] + r[k..];
  }

  /** std::sort by path: any sort will do, this one inserts. */
  method SortByPath(list: seq<Adapter>, indices: seq<nat>) returns (r: seq<nat>)
    requires Within(indices, |list|)
    ensures multiset(r) == multiset(indices)
    ensures Within(r, |list|) && Ordered(list, r)
  {
    r := [];
    var n := 0;
    while n < |indices|
      invariant 0 <= n <= |indices|
      invariant multiset(r) == multiset(indices[..n])
      invariant Within(r, |list|) && Ordered(list, r)
    {
      assert indices[..n + 1] == indices[..n] + [indices[n]];
      r := Insert(list, r, indices[n]);
      n := n + 1;
    }
    assert indices[..n] == indices;
  }

  /** Names that follow the orders of the first n groups. */
  ghost predicate AllNamed(list: seq<Adapter>, names: seq<string>, groups: seq<Group>, orders: seq<seq<nat>>)
    requires |names| == |list| && |orders| <= |groups|
  {
    forall g :: 0 <= g < |orders| ==>
      OrderOf(list, groups[g].kind, orders[g]) && Named(names, groups[g].kind, orders[g], |orders[g]|)
  }

  lemma NamedPosition(list: seq<Adapter>, names: seq<string>, groups: seq<Group>, orders: seq<seq<nat>>, i: nat)
    returns (g: nat, p: nat)
    requires |names| == |list| && i < |list| && |orders| == |groups|
    requires Grouped(list, |list|, groups) && AllNamed(list, names, groups, orders)
    ensures g < |groups| && groups[g].kind == list[i].kind && p < |orders[g]| && orders[g][p] == i
    ensures names[i] == GroupName(list[i].kind, |orders[g]|, p)
  {
    assert HasGroup(groups, list[i].kind);
    g :| 0 <= g < |groups| && groups[g].kind == list[i].kind;
    assert OrderOf(list, groups[g].kind, orders[g]);
    assert i in orders[g];
    p :| 0 <= p < |orders[g]| && orders[g][p] == i;
  }

  lemma PositionOf(list: seq<Adapter>, kind: int, r: seq<nat>, i: nat) returns (p: nat)
    requires OrderOf(list, kind, r) && i < |list| && list[i].kind == kind
    ensures p < |r| && r[p] == i
  {
    assert i in r;
    p :| 0 <= p < |r| && r[p] == i;
  }

  lemma GroupNamesDiffer(kind: int, size: nat, p: nat, q: nat)
    requires p < size && q < size && p != q
    ensures GroupName(kind, size, p) != GroupName(kind, size, q)
  {
    NumberedInjective(BaseName(kind), p + 1, q + 1);
  }

  lemma PositionsTellApart(list: seq<Adapter>, names: seq<string>, kind: int, r: seq<nat>, i: nat, j: nat)
    requires |names| == |list| && i < j < |list| && list[i].kind == list[j].kind == kind
    requires OrderOf(list, kind, r) && Named(names, kind, r, |r|)
    ensures names[i] != names[j]
  {
    var p := PositionOf(list, kind, r, i);
    var q := PositionOf(list, kind, r, j);
    GroupNamesDiffer(kind, |r|, p, q);
  }

  lemma NamesTellPeersApart(list: seq<Adapter>, names: seq<string>, groups: seq<Group>, orders: seq<seq<nat>>,
                            i: nat, j: nat)
    requires |names| == |list| && i < j < |list| && list[i].kind == list[j].kind && |orders| == |groups|
    requires Grouped(list, |list|, groups) && AllNamed(list, names, groups, orders)
    ensures names[i] != names[j]
  {
    var g, p := NamedPosition(list, names, groups, orders, i);
    PositionsTellApart(list, names, groups[g].kind, orders[g], i, j);
  }

  lemma AddOrder(list: seq<Adapter>, before: seq<string>, names: seq<string>, groups: seq<Group>,
                 orders: seq<seq<nat>>, r: seq<nat>)
    requires |names| == |before| == |list| && |orders| < |groups|
    requires Grouped(list, |list|, groups) && AllNamed(list, before, groups, orders)
    requires OrderOf(list, groups[|orders|].kind, r) && Named(names, groups[|orders|].kind, r, |r|)
    requires forall i :: 0 <= i < |list| && list[i].kind != groups[|orders|].kind ==> names[i] == before[i]
    ensures AllNamed(list, names, groups, orders + [r])
  {
    forall g | 0 <= g < |orders|
      ensures Named(names, groups[g].kind, orders[g], |orders[g]|)
    {
      assert Named(before, groups[g].kind, orders[g], |orders[g]|);
    }
  }

  method NumberGroup(list: seq<Adapter>, names: array<string>, kind: int, r: seq<nat>)
    requires names.Length == |list| && Covers(list, kind, |list|, r) && |r| != 1
    modifies names
    ensures Named(names[..], kind, r, |r|)
    ensures forall i :: 0 <= i < |list| && list[i].kind != kind ==> names[i] == old(names[i])
  {
    var pos := 0;
    while pos < |r|
      invariant 0 <= pos <= |r|
      invariant Named(names[..], kind, r, pos)
      invariant forall i :: 0 <= i < |list| && list[i].kind != kind ==> names[i] == old(names[i])
    {
      names[r[pos]] := Numbered(BaseName(kind), pos + 1);
      pos := pos + 1;
    }
  }

  /** The body of the loop over the types. It renames the adapters of one type and no others. */
  method NameGroup(list: seq<Adapter>, names: array<string>, kind: int, indices: seq<nat>) returns (r: seq<nat>)
    requires names.Length == |list| && Covers(list, kind, |list|, indices)
    modifies names
    ensures OrderOf(list, kind, r) && Named(names[..], kind, r, |r|)
    ensures forall i :: 0 <= i < |list| && list[i].kind != kind ==> names[i] == old(names[i])
  {
    if |indices| == 1 {
      names[indices[0]] := BaseName(kind);
      return indices;
    }
    r := SortByPath(list, indices);
    PermutationCovers(list, kind, indices, r);
    assert |r| != 1 by {
      assert |multiset(r)| == |multiset(indices)|;
    }
    NumberGroup(list, names, kind, r);
  }

  /**
   Names are distinct within a type whatever the paths are. With distinct paths they are the ones of Name.
   */
  ghost predicate NamesAssigned(list: seq<Adapter>, names: seq<string>) {
    && |names| == |list|
    && (forall i, j :: 0 <= i < j < |list| && list[i].kind == list[j].kind ==> names[i] != names[j])
    && (DistinctPathsIn(list) ==> forall i :: 0 <= i < |list| ==> names[i] == Name(Elements(list), list[i]))
  }

  lemma PermutedPathsDiffer(list: seq<Adapter>, other: seq<Adapter>)
    requires multiset(list) == multiset(other) && DistinctPathsIn(list)
    ensures Elements(list) == Elements(other) && DistinctPathsIn(other)
  {
    forall x ensures x in list <==> x in other {
      assert x in multiset(list) <==> x in multiset(other);
    }
    PermutationDiffers(list, other);
    forall i, j | 0 <= i < j < |other|
      ensures other[i].path != other[j].path
    {
      assert other[i] in list && other[j] in list;
    }
  }

  /**
   When the same adapters, with distinct paths, are detected in another order, AssignAdapterNames gives
   each of them the name that it had.
   */
  lemma OrderOfDetectionIsIrrelevant(list: seq<Adapter>, names: seq<string>, other: seq<Adapter>, names': seq<string>,
                                     i: nat, j: nat)
    requires NamesAssigned(list, names) && NamesAssigned(other, names')
    requires multiset(list) == multiset(other) && DistinctPathsIn(list)
    requires i < |list| && j < |other| && list[i] == other[j]
    ensures names[i] == names'[j]
  {
    PermutedPathsDiffer(list, other);
  }

  method AssignAdapterNames(list: seq<Adapter>, names: array<string>)
    requires names.Length == |list|
    modifies names
    ensures NamesAssigned(list, names[..])
  {
    var groups := GroupByType(list);
    ghost var orders: seq<seq<nat>> := [];
    var g := 0;
    while g < |groups|
      invariant 0 <= g == |orders| <= |groups|
      invariant AllNamed(list, names[..], groups, orders)
    {
      ghost var before := names[..];
      var r := NameGroup(list, names, groups[g].kind, groups[g].indices);
      AddOrder(list, before, names[..], groups, orders, r);
      orders := orders + [r];
      g := g + 1;
    }
    forall i, j | 0 <= i < j < |list| && list[i].kind == list[j].kind
      ensures names[i] != names[j]
    {
      NamesTellPeersApart(list, names[..], groups, orders, i, j);
    }
    if DistinctPathsIn(list) {
      forall i | 0 <= i < |list|
        ensures names[i] == Name(Elements(list), list[i])
      {
        var h, p := NamedPosition(list, names[..], groups, orders, i);
        GroupNameIsName(list, list[i].kind, orders[h], p);
      }
    }
  }
}
