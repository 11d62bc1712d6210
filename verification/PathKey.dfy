/**
 The textual key of a route: hop names joined by "->". The solvers compare keys instead
 of hop lists and later split them again, so the key has to determine the list.
 */
module PathKey {

  predicate ArrowAt(s: string, i: nat) {
    i + 1 < |s| && s[i] == '-' && s[i + 1] == '>'
  }

  /** The name contains the separator. */
  ghost predicate HasArrow(s: string) {
    exists i: nat :: ArrowAt(s, i)
  }

  ghost predicate ArrowFree(hops: seq<string>) {
    forall i :: 0 <= i < |hops| ==> !HasArrow(hops[i])
  }

  /** strings.Join(hops, "->") */
  function Join(hops: seq<string>): string {
    if |hops| == 0 then "" else if |hops| == 1 then hops[0] else hops[0] + "->" + Join(hops[1..])
  }

  /** The first separator at or after `from`, or |s| when there is none. */
  function IndexFrom(s: string, from: nat): (i: nat)
    requires from <= |s|
    ensures from <= i <= |s|
    ensures i < |s| ==> ArrowAt(s, i)
    ensures forall k: nat :: from <= k < i ==> !ArrowAt(s, k)
    decreases |s| - from
  {
    if from == |s| then |s| else if ArrowAt(s, from) then from else IndexFrom(s, from + 1)
  }

  /** strings.Split(s, "->") */
  function Split(s: string): (hops: seq<string>)
    ensures |hops| >= 1
    decreases |s|
  {
    var i := IndexFrom(s, 0);
    if i == |s| then [s] else [s[..i]] + Split(s[i + 2..])
  }

  /** The first separator of a joined key is the one that was inserted after the first name. */
  lemma FirstSeparator(name: string, rest: string)
    requires !HasArrow(name)
    ensures IndexFrom(name + "->" + rest, 0) == |name|
  {
    var s := name + "->" + rest;
    assert ArrowAt(s, |name|);
    forall k: nat | k < |name|
      ensures !ArrowAt(s, k)
    {
      assert !ArrowAt(name, k);
    }
  }

  lemma {:induction false} SplitJoin(hops: seq<string>)
    requires |hops| >= 1 && ArrowFree(hops)
    ensures Split(Join(hops)) == hops
  {
    if |hops| == 1 {
      assert !HasArrow(hops[0]);
    } else {
      var rest := Join(hops[1..]);
      assert !HasArrow(hops[0]);
      FirstSeparator(hops[0], rest);
      assert ArrowFree(hops[1..]);
      SplitJoin(hops[1..]);
      var s := hops[0] + "->" + rest;
      assert s[..|hops[0]|] == hops[0] && s[|hops[0]| + 2..] == rest;
      assert Split(s) == [hops[0]] + Split(rest);
    }
  }

  lemma {:induction false} SplitIsArrowFree(s: string)
    ensures ArrowFree(Split(s))
    decreases |s|
  {
    var i := IndexFrom(s, 0);
    if i < |s| {
      assert !HasArrow(s[..i]) by {
        forall k: nat
          ensures !ArrowAt(s[..i], k)
        {
          assert k < i ==> !ArrowAt(s, k);
        }
      }
      SplitIsArrowFree(s[i + 2..]);
    }
  }

  /** A route is recovered from its key exactly when no hop name contains the separator. */
  lemma KeyRoundTrip(hops: seq<string>)
    requires |hops| >= 1
    ensures Split(Join(hops)) == hops <==> ArrowFree(hops)
  {
    SplitIsArrowFree(Join(hops));
    if ArrowFree(hops) {
      SplitJoin(hops);
    }
  }

  /** Key equality is route equality. */
  lemma KeysInjective(p: seq<string>, q: seq<string>)
    requires |p| >= 1 && |q| >= 1 && ArrowFree(p) && ArrowFree(q)
    ensures Join(p) == Join(q) <==> p == q
  {
    SplitJoin(p);
    SplitJoin(q);
  }
}
