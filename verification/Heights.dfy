/** Block heights in ascending order, as the loaders sort the block files. */
module Heights {

  predicate Increasing(l: seq<int>)
  {
    forall i, j :: 0 <= i < j < |l| ==> l[i] < l[j]
  }

  ghost predicate Enumerates(l: seq<int>, s: set<int>)
  {
    && Increasing(l)
    && (forall i :: 0 <= i < |l| ==> l[i] in s)
    && (forall x :: x in s ==> exists i :: 0 <= i < |l| && l[i] == x)
  }

  lemma EmptyOrInhabited(s: set<int>)
    ensures s == {} || exists x :: x in s
  {
    if forall x :: x !in s {
      assert s == {};
    }
  }

  lemma {:induction false} LeastExists(s: set<int>)
    requires s != {}
    ensures exists m :: m in s && forall x :: x in s ==> m <= x
  {
    EmptyOrInhabited(s);
    var p :| p in s;
    if s == {p} {
      assert forall x :: x in s ==> p <= x;
    } else {
      assert s - {p} != {} by { assert s == (s - {p}) + {p}; }
      LeastExists(s - {p});
      var q :| q in s - {p} && forall x :: x in s - {p} ==> q <= x;
      var m := if p < q then p else q;
      forall x | x in s ensures m <= x {
        if x != p { assert x in s - {p}; }
      }
    }
  }

  ghost function Least(s: set<int>): (m: int)
    requires s != {}
    ensures m in s && forall x :: x in s ==> m <= x
  {
    LeastExists(s);
    var m :| m in s && forall x :: x in s ==> m <= x;
    m
  }

  lemma PrependLeast(m: int, l: seq<int>, s: set<int>)
    requires m in s && (forall x :: x in s ==> m <= x) && Enumerates(l, s - {m})
    ensures Enumerates([m] + l, s)
  {
    var r := [m] + l;
    forall x | x in s ensures exists i :: 0 <= i < |r| && r[i] == x {
      if x == m {
        assert r[0] == x;
      } else {
        assert x in s - {m};
        var i :| 0 <= i < |l| && l[i] == x;
        assert r[i + 1] == x;
      }
    }
  }

  ghost function AscendingHeights(s: set<int>): (l: seq<int>)
    ensures Enumerates(l, s)
  {
    if s == {} then []
    else
      var m := Least(s);
      PrependLeast(m, AscendingHeights(s - {m}), s);
      [m] + AscendingHeights(s - {m})
  }

  lemma SameLeast(l: seq<int>, r: seq<int>, s: set<int>)
    requires l != [] && Enumerates(l, s) && Enumerates(r, s)
    ensures r != [] && l[0] == r[0]
  {
  }

  lemma EmptyTogether(l: seq<int>, s: set<int>)
    requires Enumerates(l, s)
    ensures l == [] <==> s == {}
  {
    EmptyOrInhabited(s);
    if l != [] {
      assert l[0] in s;
    }
  }

  lemma {:induction false} EnumerationUnique(l: seq<int>, r: seq<int>, s: set<int>)
    requires Enumerates(l, s) && Enumerates(r, s)
    ensures l == r
    decreases |l|
  {
    hide Enumerates;
    EmptyTogether(l, s);
    EmptyTogether(r, s);
    if s != {} {
      SameLeast(l, r, s);
      EnumerationTail(l, s);
      EnumerationTail(r, s);
      EnumerationUnique(l[1..], r[1..], s - {l[0]});
      assert l == [l[0]] + l[1..] && r == [r[0]] + r[1..];
    }
  }

  lemma EnumerationTail(l: seq<int>, s: set<int>)
    requires l != [] && Enumerates(l, s)
    ensures Enumerates(l[1..], s - {l[0]})
  {
  }

  /** Puts `h` in its place in an increasing list. */
  method InsertHeight(l: seq<int>, h: int, ghost s: set<int>) returns (r: seq<int>)
    requires Enumerates(l, s) && h !in s
    ensures Enumerates(r, s + {h})
  {
    var i := 0;
    while i < |l| && l[i] < h
      invariant 0 <= i <= |l|
      invariant forall j :: 0 <= j < i ==> l[j] < h
    {
      i := i + 1;
    }
    r := l[..i] + [h] + l[i..];
    SplicedHeight(l, h, s, i);
  }

  lemma SplicedIncreasing(l: seq<int>, h: int, i: nat)
    requires Increasing(l) && i <= |l|
    requires forall j :: 0 <= j < i ==> l[j] < h
    requires i < |l| ==> l[i] > h
    ensures Increasing(l[..i] + [h] + l[i..])
  {
  }

  lemma SplicedHeight(l: seq<int>, h: int, s: set<int>, i: nat)
    requires Enumerates(l, s) && h !in s && i <= |l|
    requires forall j :: 0 <= j < i ==> l[j] < h
    requires i < |l| ==> l[i] >= h
    ensures Enumerates(l[..i] + [h] + l[i..], s + {h})
  {
    var r := l[..i] + [h] + l[i..];
    assert i < |l| ==> l[i] in s;
    SplicedIncreasing(l, h, i);
    hide Increasing;
    forall x | x in s + {h} ensures exists j :: 0 <= j < |r| && r[j] == x {
      if x == h {
        assert r[i] == x;
      } else {
        var j :| 0 <= j < |l| && l[j] == x;
        assert r[if j < i then j else j + 1] == x;
      }
    }
  }

  /** `sort.Slice` on heights. */
  method SortHeights(s: set<int>) returns (l: seq<int>)
    ensures l == AscendingHeights(s)
  {
    l := [];
    var todo := s;
    ghost var done: set<int> := {};
    while todo != {}
      invariant todo <= s && done == s - todo && Enumerates(l, done)
      decreases todo
    {
      EmptyOrInhabited(todo);
      var h :| h in todo;
      todo := todo - {h};
      l := InsertHeight(l, h, done);
      done := done + {h};
    }
    assert done == s;
    EnumerationUnique(l, AscendingHeights(s), s);
  }
}
