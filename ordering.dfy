/** Row order of the store's queries: ids in ascending or descending order.
    Every id the store hands out lies in `0 <= id < bound`, where `bound` is
    the store's next id, so the ids are listed by scanning that range. */
module Ordering {
  import opened Records

  predicate Increasing(r: seq<int>) {
    forall i, j :: 0 <= i < j < |r| ==> r[i] < r[j]
  }

  predicate Decreasing(r: seq<int>) {
    forall i, j :: 0 <= i < j < |r| ==> r[i] > r[j]
  }

  /** The members of `s` below `bound` in ascending order: `ORDER BY id ASC`. */
  function Ascending(s: set<int>, bound: int): (r: seq<int>)
    ensures forall x :: x in r <==> x in s && 0 <= x < bound
    ensures Increasing(r)
    decreases bound
  {
    if bound <= 0 then []
    else
      var r := Ascending(s, bound - 1);
      if bound - 1 in s then
        assert forall i :: 0 <= i < |r| ==> r[i] < bound - 1 by {
          forall i | 0 <= i < |r| ensures r[i] < bound - 1 {
            assert r[i] in r;
          }
        }
        r + [bound - 1]
      else r
  }

  function Reverse(r: seq<int>): (q: seq<int>)
    ensures |q| == |r|
    ensures forall i :: 0 <= i < |r| ==> q[i] == r[|r| - 1 - i]
  {
    seq(|r|, i requires 0 <= i < |r| => r[|r| - 1 - i])
  }

  /** The members of `s` below `bound` in descending order: `ORDER BY id DESC`. */
  function Descending(s: set<int>, bound: int): (r: seq<int>)
    ensures forall x :: x in r <==> x in s && 0 <= x < bound
    ensures Decreasing(r)
  {
    var up := Ascending(s, bound);
    var r := Reverse(up);
    assert forall x :: x in r <==> x in up by {
      forall x ensures x in r <==> x in up {
        if x in up {
          var i :| 0 <= i < |up| && up[i] == x;
          assert r[|up| - 1 - i] == x;
        }
      }
    }
    r
  }

  /** The smallest member of `s` below `bound`, if there is one: SQL's `.first()`
      over rows in primary-key order. */
  function First(s: set<int>, bound: int): (r: Option<int>)
    ensures r.Some? ==> r.value in s && 0 <= r.value < bound
    ensures r.Some? ==> forall x :: x in s && 0 <= x < bound ==> r.value <= x
    ensures r.None? <==> forall x :: x in s ==> !(0 <= x < bound)
  {
    var up := Ascending(s, bound);
    if up == [] then None
    else
      assert forall x :: x in up ==> up[0] <= x by {
        forall x | x in up ensures up[0] <= x {
          var i :| 0 <= i < |up| && up[i] == x;
        }
      }
      Some(up[0])
  }

  /** The members of `s` in `0 <= x < bound`. */
  function Below(s: set<int>, bound: int): set<int> {
    set x | x in s && 0 <= x < bound
  }

  /** The scan lists each member once: its length is the number of members in range. */
  lemma {:induction false} AscendingCount(s: set<int>, bound: int)
    ensures |Ascending(s, bound)| == |Below(s, bound)|
    decreases bound
  {
    if bound <= 0 {
      assert Below(s, bound) == {};
    } else {
      AscendingCount(s, bound - 1);
      if bound - 1 in s {
        assert Below(s, bound) == Below(s, bound - 1) + {bound - 1};
      } else {
        assert Below(s, bound) == Below(s, bound - 1);
      }
    }
  }

  /** A set whose every member is listed in `ids` has at most `|ids|` members. */
  lemma {:induction false} ListedAtMost(ids: seq<int>, s: set<int>)
    requires forall x :: x in s ==> x in ids
    ensures |s| <= |ids|
    decreases |ids|
  {
    if ids == [] {
      assert forall x :: x !in s;
    } else {
      var init := ids[..|ids| - 1];
      var last := ids[|ids| - 1];
      assert ids == init + [last];
      ListedAtMost(init, s - {last});
      if last in s {
        assert s == (s - {last}) + {last};
      } else {
        assert s == s - {last};
      }
    }
  }

  /** Without repetitions the two counts agree. */
  lemma {:induction false} DistinctExactly(ids: seq<int>)
    requires forall i, j :: 0 <= i < j < |ids| ==> ids[i] != ids[j]
    ensures |set x | x in ids| == |ids|
    decreases |ids|
  {
    if ids != [] {
      var init := ids[..|ids| - 1];
      DistinctExactly(init);
      assert ids == init + [ids[|ids| - 1]];
      assert ids[|ids| - 1] !in init;
      assert (set x | x in ids) == (set x | x in init) + {ids[|ids| - 1]};
    }
  }

  /** A list without members is empty. */
  lemma NoMembers(r: seq<int>)
    ensures (forall x :: x !in r) ==> r == []
  {
    if r != [] {
      var first := r[0];
      assert first in r;
    }
  }
}
