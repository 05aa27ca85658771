/**
 * The intrusive doubly-linked lists of the agent, seen as sequences: an
 * element is linked at most once, and removal unlinks that one element.
 */
module Lists {

  /** No element occurs twice. */
  ghost predicate Distinct<T>(s: seq<T>) {
    forall i, j :: 0 <= i < j < |s| ==> s[i] != s[j]
  }

  /** The position of the first occurrence of `x` in `s`. */
  function IndexOf<T(==)>(s: seq<T>, x: T): (i: nat)
    requires x in s
    ensures i < |s| && s[i] == x && x !in s[..i]
  {
    if s[0] == x then 0 else IndexOf(s[1..], x) + 1
  }

  /**
   * `LIST_REMOVE`: unlinks the first node holding `x`, every other node
   * keeping its order; a list without `x` is left as it is.
   */
  function Remove<T(==)>(s: seq<T>, x: T): (r: seq<T>)
    ensures x !in s ==> r == s
    ensures x in s ==>
      && |r| == |s| - 1
      && forall k :: 0 <= k < |r| ==> r[k] == if k < IndexOf(s, x) then s[k] else s[k + 1]
  {
    if x in s then
      var i := IndexOf(s, x);
      RemoveAtShifts(s, i);
      s[..i] + s[i + 1..]
    else s
  }

  /** Unlinking the node at `i` moves every later node one place forward. */
  lemma RemoveAtShifts<T>(s: seq<T>, i: nat)
    requires i < |s|
    ensures |s[..i] + s[i + 1..]| == |s| - 1
    ensures forall k :: 0 <= k < |s| - 1 ==> (s[..i] + s[i + 1..])[k] == if k < i then s[k] else s[k + 1]
  {
  }

  /**
   * Unlinking the node at `i` from a list without repetitions leaves a
   * list without repetitions that no longer holds that node and holds
   * nothing new.
   */
  lemma RemoveAtDistinct<T>(s: seq<T>, i: nat)
    requires Distinct(s) && i < |s|
    ensures Distinct(s[..i] + s[i + 1..])
    ensures s[i] !in s[..i] + s[i + 1..]
    ensures forall y :: y in s[..i] + s[i + 1..] ==> y in s
  {
    RemoveAtShifts(s, i);
  }

  /**
   * `LIST_REMOVE` of a node linked in a list without repetitions leaves a
   * list without repetitions, one shorter, without that node and with
   * nothing new.
   */
  lemma RemoveDistinct<T>(s: seq<T>, x: T)
    requires Distinct(s) && x in s
    ensures Distinct(Remove(s, x)) && x !in Remove(s, x) && |Remove(s, x)| == |s| - 1
    ensures forall y :: y in Remove(s, x) ==> y in s
  {
    RemoveAtDistinct(s, IndexOf(s, x));
  }

  /** `LIST_APPEND` of a node not yet linked keeps the list free of repetitions. */
  lemma DistinctAppend<T>(s: seq<T>, x: T)
    requires Distinct(s) && x !in s
    ensures Distinct(s + [x])
  {
    forall i, j | 0 <= i < j < |s + [x]| ensures (s + [x])[i] != (s + [x])[j] {
      if j < |s| {
        assert (s + [x])[i] == s[i] && (s + [x])[j] == s[j];
      } else {
        assert (s + [x])[i] in s;
      }
    }
  }

  /** `LIST_APPEND` followed by `LIST_REMOVE` of the same new node restores the list. */
  lemma RemoveAppended<T>(s: seq<T>, x: T)
    requires x !in s
    ensures Remove(s + [x], x) == s
  {
    assert (s + [x])[..|s|] == s;
  }

  /** In a list without repetitions every element occurs exactly once. */
  lemma {:induction false} DistinctCount<T>(s: seq<T>, x: T)
    requires Distinct(s)
    ensures multiset(s)[x] <= 1
  {
    if s != [] {
      assert s == [s[0]] + s[1..];
      assert Distinct(s[1..]) by {
        forall i, j | 0 <= i < j < |s[1..]| ensures s[1..][i] != s[1..][j] {
          assert s[1..][i] == s[i + 1] && s[1..][j] == s[j + 1];
        }
      }
      DistinctCount(s[1..], x);
      if s[0] == x {
        assert x !in s[1..] by {
          forall k | 0 <= k < |s[1..]| ensures s[1..][k] != x { assert s[1..][k] == s[k + 1]; }
        }
      }
    }
  }
}
