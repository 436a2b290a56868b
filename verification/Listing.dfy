/** Sets of strings and their increasing listings: what sorting the keys of a map yields. */
module Listing {
  import opened Options
  import opened Text

  ghost predicate Increasing(ls: seq<string>) {
    forall i, j :: 0 <= i < j < |ls| ==> Less(ls[i], ls[j])
  }

  ghost function Elements(ls: seq<string>): set<string> {
    set s | s in ls
  }

  function Insert(x: string, ls: seq<string>): seq<string> {
    if ls == [] || Less(x, ls[0]) then [x] + ls
    else if x == ls[0] then ls
    else [ls[0]] + Insert(x, ls[1..])
  }

  lemma ElementsCons(x: string, ls: seq<string>)
    ensures Elements([x] + ls) == {x} + Elements(ls)
  {
    assert forall s :: s in [x] + ls <==> s == x || s in ls;
  }

  lemma {:induction false} InsertElements(x: string, ls: seq<string>)
    ensures Elements(Insert(x, ls)) == Elements(ls) + {x}
  {
    if ls == [] || Less(x, ls[0]) {
      ElementsCons(x, ls);
    } else if x != ls[0] {
      InsertElements(x, ls[1..]);
      assert ls == [ls[0]] + ls[1..];
      ElementsCons(ls[0], ls[1..]);
      ElementsCons(ls[0], Insert(x, ls[1..]));
    }
  }

  lemma IncreasingCons(x: string, ls: seq<string>)
    requires Increasing(ls)
    requires forall s :: s in Elements(ls) ==> Less(x, s)
    ensures Increasing([x] + ls)
  {
    var all := [x] + ls;
    forall i, j | 0 <= i < j < |all| ensures Less(all[i], all[j]) {
      assert all[j] == ls[j - 1] && ls[j - 1] in Elements(ls);
    }
  }

  lemma {:induction false} InsertIncreasing(x: string, ls: seq<string>)
    requires Increasing(ls)
    ensures Increasing(Insert(x, ls))
  {
    if ls == [] {
    } else if Less(x, ls[0]) {
      forall s | s in Elements(ls) ensures Less(x, s) {
        if s != ls[0] { LessTransitive(x, ls[0], s); }
      }
      IncreasingCons(x, ls);
    } else if x != ls[0] {
      LessTotal(x, ls[0]);
      InsertIncreasing(x, ls[1..]);
      InsertElements(x, ls[1..]);
      IncreasingCons(ls[0], Insert(x, ls[1..]));
    }
  }

  lemma TailElements(a: seq<string>)
    requires a != [] && Increasing(a)
    ensures Elements(a[1..]) == Elements(a) - {a[0]}
    ensures forall s :: s in Elements(a[1..]) ==> Less(a[0], s)
  {
    LessIrreflexive(a[0]);
    assert a == [a[0]] + a[1..];
    ElementsCons(a[0], a[1..]);
  }

  lemma ElementsEmpty(ls: seq<string>)
    ensures Elements(ls) == {} <==> ls == []
  {
    if ls != [] { assert ls[0] in Elements(ls); }
  }

  /** A set has one increasing listing. */
  lemma {:induction false} ListingUnique(a: seq<string>, b: seq<string>)
    requires Increasing(a) && Increasing(b) && Elements(a) == Elements(b)
    ensures a == b
  {
    if a == [] {
      ElementsEmpty(a);
      ElementsEmpty(b);
    } else {
      assert a[0] in Elements(b);
      TailElements(a);
      TailElements(b);
      if a[0] != b[0] {
        assert Less(b[0], a[0]) by { assert a[0] in Elements(b[1..]); }
        assert Less(a[0], b[0]) by { assert b[0] in Elements(b); }
        LessTransitive(a[0], b[0], a[0]);
        LessIrreflexive(a[0]);
        assert false;
      }
      ListingUnique(a[1..], b[1..]);
      assert a == [a[0]] + a[1..] && b == [b[0]] + b[1..];
    }
  }

  /** The strings a partial function yields on a sequence. */
  ghost function Image<X>(f: X -> Option<string>, xs: seq<X>): set<string> {
    set i | 0 <= i < |xs| && f(xs[i]).Some? :: f(xs[i]).value
  }

  function Collected<X>(f: X -> Option<string>, xs: seq<X>): seq<string> {
    if xs == [] then []
    else
      var rest := Collected(f, xs[..|xs| - 1]);
      var l := f(xs[|xs| - 1]);
      if l.None? then rest else Insert(l.value, rest)
  }

  lemma ImageStep<X>(f: X -> Option<string>, xs: seq<X>, n: nat)
    requires n < |xs|
    ensures Image(f, xs[..n + 1]) ==
            Image(f, xs[..n]) + (if f(xs[n]).Some? then {f(xs[n]).value} else {})
  {
    var big, small := xs[..n + 1], xs[..n];
    forall s | s in Image(f, small) ensures s in Image(f, big) {
      var i :| 0 <= i < n && f(small[i]) == Some(s);
      assert big[i] == small[i];
    }
    forall s | s in Image(f, big) && f(xs[n]) != Some(s) ensures s in Image(f, small) {
      var i :| 0 <= i < n + 1 && f(big[i]) == Some(s);
      assert i < n && small[i] == big[i];
    }
    assert big[n] == xs[n];
  }

  lemma {:induction false} CollectedListing<X>(f: X -> Option<string>, xs: seq<X>)
    ensures Increasing(Collected(f, xs))
    ensures Elements(Collected(f, xs)) == Image(f, xs)
  {
    if xs == [] {
    } else {
      var n := |xs| - 1;
      CollectedListing(f, xs[..n]);
      ImageStep(f, xs, n);
      assert xs[..n + 1] == xs;
      var l := f(xs[n]);
      if l.Some? {
        InsertIncreasing(l.value, Collected(f, xs[..n]));
        InsertElements(l.value, Collected(f, xs[..n]));
      }
    }
  }

  /** Listing a set in any order and sorting gives its increasing listing. */
  method SortedKeys(unique: set<string>) returns (keys: seq<string>)
    ensures Increasing(keys) && Elements(keys) == unique
  {
    keys := [];
    var rest := unique;
    while rest != {}
      invariant rest <= unique
      invariant Increasing(keys) && Elements(keys) == unique - rest
      decreases rest
    {
      var key :| key in rest;
      InsertIncreasing(key, keys);
      InsertElements(key, keys);
      keys := Insert(key, keys);
      rest := rest - {key};
    }
  }
}
