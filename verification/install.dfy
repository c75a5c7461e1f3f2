/** Installing packages into the new environment.  Whether `pip install p`
    succeeds is outside the model, so it is a parameter: the oracle
    `installs`.  Each package is tried once per occurrence in the attempt
    order and lands in exactly one of the two result lists. */
module Install {

  /** The two lists the install loop builds, each in attempt order. */
  datatype Attempts = Attempts(successful: seq<string>, failed: seq<string>)

  predicate Distinct(s: seq<string>) {
    forall i, j :: 0 <= i < j < |s| ==> s[i] != s[j]
  }

  /** Every element of `s` not in `seen`, once each, at its first occurrence. */
  function DedupeFrom(s: seq<string>, seen: set<string>): (r: seq<string>)
    ensures Distinct(r)
    ensures forall x :: x in r <==> x in s && x !in seen
  {
    if s == [] then []
    else if s[0] in seen then DedupeFrom(s[1..], seen)
    else [s[0]] + DedupeFrom(s[1..], seen + {s[0]})
  }

  /** `list(set(packages))`: each package once.  Python leaves the order of a
      set unspecified; the model fixes first-occurrence order, and the
      contracts below that mention only membership hold for every order. */
  function Dedupe(s: seq<string>): (r: seq<string>)
    ensures Distinct(r)
    ensures forall x :: x in r <==> x in s
  {
    DedupeFrom(s, {})
  }

  /** The install loop: every package of `order` is tried in turn and appended
      to `successful` when `pip install` succeeds, to `failed` otherwise.
      `PartitionPermutes` shows the two lists hold each attempt exactly once. */
  function Partition(order: seq<string>, installs: string -> bool): (r: Attempts)
    ensures forall i :: 0 <= i < |r.successful| ==> installs(r.successful[i])
    ensures forall i :: 0 <= i < |r.failed| ==> !installs(r.failed[i])
  {
    if order == [] then Attempts([], [])
    else
      var p := order[0];
      var rest := Partition(order[1..], installs);
      if installs(p) then Attempts([p] + rest.successful, rest.failed)
      else Attempts(rest.successful, [p] + rest.failed)
  }

  /** Together the two lists hold every attempt, each exactly once. */
  lemma {:induction false} PartitionPermutes(order: seq<string>, installs: string -> bool)
    ensures var r := Partition(order, installs);
      multiset(r.successful) + multiset(r.failed) == multiset(order)
  {
    if order != [] {
      var p := order[0];
      PartitionPermutes(order[1..], installs);
      var rest := Partition(order[1..], installs);
      assert order == [p] + order[1..];
      assert multiset(order) == multiset{p} + multiset(order[1..]);
      if installs(p) {
        assert multiset([p] + rest.successful) == multiset{p} + multiset(rest.successful);
      } else {
        assert multiset([p] + rest.failed) == multiset{p} + multiset(rest.failed);
      }
    }
  }

  /** The loop keeps attempt order: trying `a` and then `b` gives the results
      for `a` followed by those for `b`. */
  lemma {:induction false} PartitionAppend(a: seq<string>, b: seq<string>, installs: string -> bool)
    ensures Partition(a + b, installs).successful
      == Partition(a, installs).successful + Partition(b, installs).successful
    ensures Partition(a + b, installs).failed
      == Partition(a, installs).failed + Partition(b, installs).failed
  {
    if a == [] {
      assert a + b == b;
    } else {
      assert (a + b)[0] == a[0];
      assert (a + b)[1..] == a[1..] + b;
      PartitionAppend(a[1..], b, installs);
      var ra := Partition(a[1..], installs);
      var rb := Partition(b, installs);
      if installs(a[0]) {
        assert [a[0]] + (ra.successful + rb.successful) == ([a[0]] + ra.successful) + rb.successful;
      } else {
        assert [a[0]] + (ra.failed + rb.failed) == ([a[0]] + ra.failed) + rb.failed;
      }
    }
  }

  /** Membership in the two lists is decided by the oracle alone. */
  lemma PartitionMembers(order: seq<string>, installs: string -> bool, x: string)
    ensures x in Partition(order, installs).successful <==> x in order && installs(x)
    ensures x in Partition(order, installs).failed <==> x in order && !installs(x)
  {
    var r := Partition(order, installs);
    PartitionPermutes(order, installs);
    assert x in order <==> x in multiset(order);
    assert x in r.successful <==> x in multiset(r.successful);
    assert x in r.failed <==> x in multiset(r.failed);
  }

  /** A package tried several times is reported as often as it was tried. */
  lemma PartitionCounts(order: seq<string>, installs: string -> bool, x: string)
    ensures multiset(Partition(order, installs).successful)[x]
      == (if installs(x) then multiset(order)[x] else 0)
    ensures multiset(Partition(order, installs).failed)[x]
      == (if installs(x) then 0 else multiset(order)[x])
  {
    var r := Partition(order, installs);
    PartitionPermutes(order, installs);
    if installs(x) {
      assert x !in r.failed;
      assert multiset(r.failed)[x] == 0;
    } else {
      assert x !in r.successful;
      assert multiset(r.successful)[x] == 0;
    }
  }

  /** The configurable variant's installer: the requested packages once each;
      an empty request tries nothing.  Each distinct package is reported
      exactly once, as installed when the oracle says so and as failed
      otherwise, whatever order the set enumerates them in. */
  function InstallPackages(packages: seq<string>, installs: string -> bool): (r: Attempts)
    ensures packages == [] ==> r == Attempts([], [])
    ensures Distinct(r.successful) && Distinct(r.failed)
    ensures forall x :: x in r.successful <==> x in packages && installs(x)
    ensures forall x :: x in r.failed <==> x in packages && !installs(x)
    ensures |r.successful| + |r.failed| == |Dedupe(packages)|
  {
    var order := Dedupe(packages);
    if order == [] then Attempts([], [])
    else
      var r := Partition(order, installs);
      forall x ensures x in r.successful <==> x in packages && installs(x) {
        PartitionMembers(order, installs, x);
      }
      forall x ensures x in r.failed <==> x in packages && !installs(x) {
        PartitionMembers(order, installs, x);
      }
      DistinctParts(order, installs);
      PartitionPermutes(order, installs);
      assert |multiset(r.successful) + multiset(r.failed)| == |multiset(order)|;
      r
  }

  /** Trying distinct packages reports each at most once. */
  lemma {:induction false} DistinctParts(order: seq<string>, installs: string -> bool)
    requires Distinct(order)
    ensures Distinct(Partition(order, installs).successful)
    ensures Distinct(Partition(order, installs).failed)
  {
    if order != [] {
      DistinctParts(order[1..], installs);
      var rest := Partition(order[1..], installs);
      PartitionMembers(order[1..], installs, order[0]);
      assert order[0] !in order[1..];
    }
  }

  /** The fixed-list variant's base packages, tried before the requested ones. */
  const BasePackages: seq<string> := ["pydantic", "pytest"]

  /** The fixed-list variant's installer: the base packages then the requested
      ones, in order and without removing repeats. */
  function InstallAll(additional: seq<string>, installs: string -> bool): (r: Attempts)
    ensures multiset(r.successful) + multiset(r.failed) == multiset(BasePackages + additional)
    ensures r.successful == Partition(BasePackages, installs).successful + Partition(additional, installs).successful
    ensures r.failed == Partition(BasePackages, installs).failed + Partition(additional, installs).failed
  {
    PartitionAppend(BasePackages, additional, installs);
    PartitionPermutes(BasePackages + additional, installs);
    Partition(BasePackages + additional, installs)
  }

  /** A package requested twice in the fixed-list variant is tried, and
      reported, twice. */
  lemma RepeatedRequestReportedTwice(p: string, installs: string -> bool)
    requires installs(p) && p != "pydantic" && p != "pytest"
    ensures multiset(InstallAll([p, p], installs).successful)[p] == 2
  {
    var r := InstallAll([p, p], installs);
    PartitionCounts(BasePackages + [p, p], installs, p);
    assert multiset(BasePackages + [p, p])[p] == 2;
  }
}
