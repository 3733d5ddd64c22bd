/** Small vocabulary shared by the modules of the model. */
module Common {

  datatype Option<+T> = None | Some(value: T)

  /** No element of `s` occurs twice. */
  ghost predicate Distinct<T>(s: seq<T>) {
    forall i, j :: 0 <= i < j < |s| ==> s[i] != s[j]
  }

  /** The elements of a sequence, without order or multiplicity. */
  function Elements<T(==, !new)>(s: seq<T>): (r: set<T>)
    ensures forall x :: x in r <==> x in s
  {
    set x | x in s
  }

  /** A duplicate-free sequence drawn from a finite set is no longer than the set. */
  lemma {:induction false} DistinctFits<T>(s: seq<T>, within: set<T>)
    requires Distinct(s)
    requires forall x :: x in s ==> x in within
    ensures |s| <= |within|
  {
    if s != [] {
      var last := s[|s| - 1];
      DistinctFits(s[..|s| - 1], within - {last});
    }
  }

  lemma DistinctAppend<T>(a: seq<T>, b: seq<T>)
    requires Distinct(a) && Distinct(b)
    requires forall x :: x in b ==> x !in a
    ensures Distinct(a + b)
  {
    forall i, j | 0 <= i < j < |a + b| ensures (a + b)[i] != (a + b)[j] {
      if i < |a| <= j {
        assert b[j - |a|] in b;
      }
    }
  }

  /** Taking a subset cannot enlarge a finite set. */
  lemma {:induction false} SubsetFits<T>(a: set<T>, b: set<T>)
    requires a <= b
    ensures |a| <= |b|
  {
    if a != {} {
      var x :| x in a;
      SubsetFits(a - {x}, b - {x});
    }
  }

  /** `part` is the elements of `whole` that are wanted, in order and as often as they
      occur: `picked` says where each was found. */
  ghost predicate Picks<T>(part: seq<T>, whole: seq<T>, wanted: set<T>, picked: seq<nat>) {
    && |picked| == |part|
    && (forall k, l :: 0 <= k < l < |picked| ==> picked[k] < picked[l])
    && (forall k :: 0 <= k < |picked| ==> picked[k] < |whole| && part[k] == whole[picked[k]] && part[k] in wanted)
    && (forall i :: 0 <= i < |whole| && whole[i] in wanted ==> i in picked)
  }

  ghost predicate Filters<T>(part: seq<T>, whole: seq<T>, wanted: set<T>) {
    exists picked :: Picks(part, whole, wanted, picked)
  }

  lemma FiltersNone<T>(wanted: set<T>)
    ensures Filters([], [], wanted)
  {
    assert Picks([], [], wanted, []);
  }

  lemma FiltersBack<T>(part: seq<T>, whole: seq<T>, last: T, wanted: set<T>)
    requires Filters(part, whole, wanted)
    ensures last in wanted ==> Filters(part + [last], whole + [last], wanted)
    ensures last !in wanted ==> Filters(part, whole + [last], wanted)
  {
    var picked :| Picks(part, whole, wanted, picked);
    if last in wanted {
      PicksMore(part, whole, last, wanted, picked);
    } else {
      PicksNoMore(part, whole, last, wanted, picked);
    }
  }

  lemma PicksMore<T>(part: seq<T>, whole: seq<T>, last: T, wanted: set<T>, picked: seq<nat>)
    requires Picks(part, whole, wanted, picked) && last in wanted
    ensures Picks(part + [last], whole + [last], wanted, picked + [|whole|])
  {
    var more := picked + [|whole|];
    forall i | 0 <= i < |whole + [last]| && (whole + [last])[i] in wanted ensures i in more {
      assert i == |whole| ==> more[|picked|] == i;
      assert i < |whole| ==> whole[i] in wanted;
    }
  }

  lemma PicksNoMore<T>(part: seq<T>, whole: seq<T>, last: T, wanted: set<T>, picked: seq<nat>)
    requires Picks(part, whole, wanted, picked) && last !in wanted
    ensures Picks(part, whole + [last], wanted, picked)
  {
    forall i | 0 <= i < |whole + [last]| && (whole + [last])[i] in wanted ensures i in picked {
      assert whole[i] in wanted;
    }
  }

  lemma FiltersFront<T>(part: seq<T>, first: T, whole: seq<T>, wanted: set<T>)
    requires Filters(part, whole, wanted)
    ensures first in wanted ==> Filters([first] + part, [first] + whole, wanted)
    ensures first !in wanted ==> Filters(part, [first] + whole, wanted)
  {
    var picked :| Picks(part, whole, wanted, picked);
    var later := Later(picked);
    if first in wanted {
      PicksFirst(part, first, whole, wanted, picked);
      assert Picks([first] + part, [first] + whole, wanted, [0] + later);
    } else {
      PicksLater(part, first, whole, wanted, picked);
      assert Picks(part, [first] + whole, wanted, later);
    }
  }

  function Later(picked: seq<nat>): (later: seq<nat>)
    ensures |later| == |picked| && forall k :: 0 <= k < |picked| ==> later[k] == picked[k] + 1
  {
    seq(|picked|, k requires 0 <= k < |picked| => picked[k] + 1)
  }

  lemma LaterHolds(picked: seq<nat>, i: nat)
    requires i in picked
    ensures i + 1 in Later(picked)
  {
    var k :| 0 <= k < |picked| && picked[k] == i;
    assert Later(picked)[k] == i + 1;
  }

  lemma PicksFirst<T>(part: seq<T>, first: T, whole: seq<T>, wanted: set<T>, picked: seq<nat>)
    requires Picks(part, whole, wanted, picked) && first in wanted
    ensures Picks([first] + part, [first] + whole, wanted, [0] + Later(picked))
  {
    forall i | 0 <= i < |[first] + whole| && ([first] + whole)[i] in wanted ensures i in [0] + Later(picked) {
      if i > 0 {
        assert whole[i - 1] in wanted;
        LaterHolds(picked, i - 1);
      }
    }
    hide Later;
  }

  lemma PicksLater<T>(part: seq<T>, first: T, whole: seq<T>, wanted: set<T>, picked: seq<nat>)
    requires Picks(part, whole, wanted, picked) && first !in wanted
    ensures Picks(part, [first] + whole, wanted, Later(picked))
  {
    forall i | 0 <= i < |[first] + whole| && ([first] + whole)[i] in wanted ensures i in Later(picked) {
      assert whole[i - 1] in wanted;
      LaterHolds(picked, i - 1);
    }
    hide Later;
  }
}
