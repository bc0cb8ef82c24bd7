/** An STL-like set kept as a sorted vector (src/common/vector_set.hpp), with
    `int` keys ordered by `<` (the `std::less` default comparator). Positions
    returned by the operations stand for the source's iterators: a position
    equal to `Size()` is `end()`. */
module VectorSets {

  /** Non-decreasing order: what `std::lower_bound` needs of its range. */
  predicate Sorted(s: seq<int>) {
    forall i, j :: 0 <= i < j < |s| ==> s[i] <= s[j]
  }

  /** Strictly increasing order: sorted and free of duplicates, the invariant
      a VectorSet keeps. */
  predicate StrictlySorted(s: seq<int>) {
    forall i, j :: 0 <= i < j < |s| ==> s[i] < s[j]
  }

  /** `k` is the lower bound of `key` in `s`: everything before it is smaller
      than `key`, nothing from it on is. */
  predicate IsLowerBound(s: seq<int>, key: int, k: nat) {
    && k <= |s|
    && (forall i :: 0 <= i < k ==> s[i] < key)
    && (forall i :: k <= i < |s| ==> key <= s[i])
  }

  /** `std::lower_bound` over a sorted range, by binary search. */
  method LowerBound(s: seq<int>, key: int) returns (k: nat)
    requires Sorted(s)
    ensures IsLowerBound(s, key, k)
  {
    var lo, hi := 0, |s|;
    while lo < hi
      invariant 0 <= lo <= hi <= |s|
      invariant forall i :: 0 <= i < lo ==> s[i] < key
      invariant forall i :: hi <= i < |s| ==> key <= s[i]
    {
      var mid := lo + (hi - lo) / 2;
      if s[mid] < key {
        lo := mid + 1;
      } else {
        hi := mid;
      }
    }
    k := lo;
  }

  /** In a strictly sorted sequence the lower bound of a key is the key's
      position when the key is present, and no element equals the key when
      the bound is at the end or holds a larger element. */
  lemma LowerBoundLocatesKey(s: seq<int>, key: int, k: nat)
    requires StrictlySorted(s)
    requires IsLowerBound(s, key, k)
    ensures key in s <==> (k < |s| && s[k] == key)
  {
    if key in s {
      var i :| 0 <= i < |s| && s[i] == key;
      assert !(i < k);
    }
  }

  /** Inserting `key` at a lower-bound position of a strictly sorted sequence
      that does not contain it keeps the sequence strictly sorted. */
  lemma {:induction false} InsertAtLowerBoundSorted(s: seq<int>, key: int, k: nat)
    requires StrictlySorted(s)
    requires IsLowerBound(s, key, k)
    requires key !in s
    ensures StrictlySorted(s[..k] + [key] + s[k..])
  {
    var t := s[..k] + [key] + s[k..];
    assert |t| == |s| + 1;
    forall i, j | 0 <= i < j < |t|
      ensures t[i] < t[j]
    {
      if j < k {
        assert t[i] == s[i] && t[j] == s[j];
      } else if j == k {
        assert t[i] == s[i] && t[j] == key;
      } else if i < k {
        assert t[i] == s[i] && t[j] == s[j - 1];
        assert s[i] < key;
        assert key != s[j - 1];
      } else if i == k {
        assert t[i] == key && t[j] == s[j - 1];
        assert key != s[j - 1];
      } else {
        assert t[i] == s[i - 1] && t[j] == s[j - 1];
      }
    }
  }

  /** Removing one element keeps a sequence strictly sorted. */
  lemma RemoveKeepsStrictlySorted(s: seq<int>, k: nat)
    requires StrictlySorted(s)
    requires k < |s|
    ensures StrictlySorted(s[..k] + s[k + 1..])
  {
    var t := s[..k] + s[k + 1..];
    forall i, j | 0 <= i < j < |t|
      ensures t[i] < t[j]
    {
      var i' := if i < k then i else i + 1;
      var j' := if j < k then j else j + 1;
      assert t[i] == s[i'] && t[j] == s[j'];
    }
  }

  /** The elements of a strictly sorted sequence are pairwise distinct, so the
      sequence has as many positions as its set has members. */
  lemma {:induction false} StrictlySortedCardinality(s: seq<int>)
    requires StrictlySorted(s)
    ensures |set x | x in s| == |s|
  {
    if s != [] {
      var rest := s[1..];
      StrictlySortedCardinality(rest);
      assert s[0] !in rest by {
        forall i | 0 <= i < |rest| ensures rest[i] != s[0] {
          assert rest[i] == s[i + 1];
        }
      }
      assert (set x | x in s) == {s[0]} + (set x | x in rest) by {
        assert s == [s[0]] + rest;
      }
    }
  }

  class VectorSet {
    /** The underlying vector `m_data`. */
    var data: seq<int>

    /** The set invariant: `data` is strictly sorted. */
    predicate Valid()
      reads this
    {
      StrictlySorted(data)
    }

    /** The keys the set holds. */
    ghost function Elements(): set<int>
      reads this
    {
      set x | x in data
    }

    /** The default constructor: an empty set. */
    constructor ()
      ensures Valid() && data == []
    {
      data := [];
    }

    /** The array and iterator-range constructors copy their input verbatim,
        without sorting; the set is valid exactly when that input is strictly
        sorted. */
    constructor FromRange(input: seq<int>)
      ensures data == input
      ensures Valid() <==> StrictlySorted(input)
    {
      data := input;
    }

    /** `operator[]`: the element at an in-range position; in a valid set it
        is larger than every element before it and smaller than every one
        after it. */
    function At(pos: nat): (r: int)
      reads this
      requires pos < |data|
      ensures r in data
      ensures Valid() ==> forall i :: 0 <= i < pos ==> data[i] < r
      ensures Valid() ==> forall i :: pos < i < |data| ==> r < data[i]
    {
      data[pos]
    }

    /** `size()`: the number of distinct keys held. */
    function Size(): (n: nat)
      reads this
      requires Valid()
      ensures n == |Elements()|
    {
      StrictlySortedCardinality(data);
      |data|
    }

    /** `empty()`: no key is held. */
    function Empty(): (b: bool)
      reads this
      ensures b <==> Elements() == {}
    {
      assert data != [] ==> data[0] in Elements();
      |data| == 0
    }

    /** `clear()`. */
    method Clear()
      modifies this
      ensures Valid() && data == []
    {
      data := [];
    }

    /** `insert(key)`: an absent key goes in at its lower-bound position and
        the result says so; a present key leaves the set as it was and the
        returned position holds that key. */
    method Insert(key: int) returns (pos: nat, inserted: bool)
      requires Valid()
      modifies this
      ensures Valid()
      ensures inserted <==> key !in old(data)
      ensures pos < |data| && data[pos] == key
      ensures !inserted ==> data == old(data)
      ensures inserted ==>
                && IsLowerBound(old(data), key, pos)
                && data == old(data)[..pos] + [key] + old(data)[pos..]
      ensures Elements() == old(Elements()) + {key}
    {
      var lb := LowerBound(data, key);
      LowerBoundLocatesKey(data, key, lb);
      if lb < |data| && !(key < data[lb]) {
        pos, inserted := lb, false;
        return;
      }
      InsertAtLowerBoundSorted(data, key, lb);
      assert data == data[..lb] + data[lb..];
      data := data[..lb] + [key] + data[lb..];
      pos, inserted := lb, true;
    }

    /** `erase(pos)`: removes the element at an in-range position and returns
        the position of the element that followed it. */
    method EraseAt(pos: nat) returns (next: nat)
      requires Valid()
      requires pos < |data|
      modifies this
      ensures Valid()
      ensures data == old(data)[..pos] + old(data)[pos + 1..]
      ensures next == pos && next <= |data|
      ensures Elements() == old(Elements()) - {old(data)[pos]}
    {
      RemoveKeepsStrictlySorted(data, pos);
      ghost var removed := data[pos];
      data := data[..pos] + data[pos + 1..];
      next := pos;
      forall x | x in old(data) && x != removed
        ensures x in data
      {
        var i :| 0 <= i < |old(data)| && old(data)[i] == x;
        if i < pos {
          assert data[i] == x;
        } else {
          assert i != pos;
          assert data[i - 1] == x;
        }
      }
      forall x | x in data
        ensures x in old(data) && x != removed
      {
        var i :| 0 <= i < |data| && data[i] == x;
        if i < pos {
          assert old(data)[i] == x;
          assert old(data)[i] < old(data)[pos];
        } else {
          assert old(data)[i + 1] == x;
          assert old(data)[pos] < old(data)[i + 1];
        }
      }
    }

    /** `find(key)`: the key's position when it is held, otherwise `end()`. */
    method Find(key: int) returns (pos: nat)
      requires Valid()
      ensures pos <= |data|
      ensures pos < |data| <==> key in data
      ensures pos < |data| ==> data[pos] == key
    {
      var lb := LowerBound(data, key);
      LowerBoundLocatesKey(data, key, lb);
      if lb < |data| && data[lb] == key {
        pos := lb;
      } else {
        pos := |data|;
      }
    }

    /** `contains(key)`: membership, decided by binary search. */
    method Contains(key: int) returns (b: bool)
      requires Valid()
      ensures b <==> key in Elements()
    {
      var lb := LowerBound(data, key);
      LowerBoundLocatesKey(data, key, lb);
      b := lb < |data| && !(key < data[lb]);
    }

    /** `erase(key)`: a held key is removed and the position that followed it
        is returned; for an absent key the result is `end()` and nothing
        changes. */
    method Erase(key: int) returns (next: nat)
      requires Valid()
      modifies this
      ensures Valid()
      ensures key !in old(data) ==> data == old(data) && next == |data|
      ensures key in old(data) ==>
                && next < |old(data)| && old(data)[next] == key
                && data == old(data)[..next] + old(data)[next + 1..]
      ensures Elements() == old(Elements()) - {key}
    {
      var it := Find(key);
      if it < |data| {
        next := EraseAt(it);
      } else {
        next := |data|;
      }
    }
  }
}
