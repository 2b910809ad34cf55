/** ListMap: lists kept as Go slices, whose removals and appends edit one backing array in place. */
module ListMaps {

  /** A Go slice: `len` elements of `arr` from `off`; its capacity runs to the end of the array. */
  datatype Slice<V> = Slice(arr: array<V>, off: nat, len: nat)

  ghost predicate Fits<V>(s: Slice<V>) {
    s.off + s.len <= s.arr.Length
  }

  ghost function Visible<V>(s: Slice<V>): seq<V>
    requires Fits(s)
    reads s.arr
  {
    s.arr[s.off..s.off + s.len]
  }

  // ---- the pure model ----

  function RemovedAt<V>(s: seq<V>, i: nat): seq<V> {
    if i < |s| then s[..i] + s[i + 1..] else s
  }

  /** Without the first `limit` elements that match. */
  function DropFirst<V>(s: seq<V>, matches: V -> bool, limit: nat): (r: seq<V>)
    ensures |r| <= |s|
  {
    if s == [] then []
    else if limit > 0 && matches(s[0]) then DropFirst(s[1..], matches, limit - 1)
    else [s[0]] + DropFirst(s[1..], matches, limit)
  }

  /** RemoveItems' limit: less than one means none. */
  function Limit<V>(s: seq<V>, limit: int): nat {
    if limit < 1 then |s| else limit
  }

  function Unmatched<V>(s: seq<V>, matches: V -> bool): (r: seq<V>)
    ensures |r| <= |s|
  {
    if s == [] then [] else (if matches(s[0]) then [] else [s[0]]) + Unmatched(s[1..], matches)
  }

  /** Up to `n` every match is gone and all else is there in order; after it nothing is touched. */
  ghost predicate FilteredUpTo<V>(s: seq<V>, matches: V -> bool, n: nat, r: seq<V>)
    requires n <= |s|
  {
    r == Unmatched(s[..n], matches) + s[n..]
  }

  /** What is left is a stable filter up to a point, which is the end of the list unless the limit was used up. */
  lemma {:induction false} DropFirstIsFilter<V>(s: seq<V>, matches: V -> bool, limit: nat) returns (n: nat)
    ensures n <= |s| && FilteredUpTo(s, matches, n, DropFirst(s, matches, limit))
    ensures |s| - |DropFirst(s, matches, limit)| == limit || (n == |s| && |s| - |DropFirst(s, matches, limit)| < limit)
  {
    if s == [] || limit == 0 {
      DropNothing(s, matches);
      n := 0;
      assert Unmatched(s[..0], matches) + s[0..] == s;
    } else {
      var m := DropFirstIsFilter(s[1..], matches, if matches(s[0]) then limit - 1 else limit);
      n := m + 1;
      FilteredCons(s, matches, m, DropFirst(s[1..], matches, if matches(s[0]) then limit - 1 else limit));
    }
  }

  /** How many elements go: as many as match, but no more than the limit, if that is at least one. */
  lemma {:induction false} LimitCounts<V>(s: seq<V>, matches: V -> bool, limit: int)
    ensures var gone, matching := |s| - |DropFirst(s, matches, Limit(s, limit))|, |s| - |Unmatched(s, matches)|;
      gone == if 1 <= limit < matching then limit else matching
  {
    DropCounts(s, matches, Limit(s, limit));
  }

  lemma {:induction false} DropCounts<V>(s: seq<V>, matches: V -> bool, n: nat)
    ensures var gone, matching := |s| - |DropFirst(s, matches, n)|, |s| - |Unmatched(s, matches)|;
      matching <= |s| && gone == if n < matching then n else matching
  {
    if s != [] {
      DropCounts(s[1..], matches, if n > 0 && matches(s[0]) then n - 1 else n);
    }
  }

  lemma FilteredCons<V>(s: seq<V>, matches: V -> bool, m: nat, r: seq<V>)
    requires m < |s| && FilteredUpTo(s[1..], matches, m, r)
    ensures FilteredUpTo(s, matches, m + 1, if matches(s[0]) then r else [s[0]] + r)
  {
    assert s[..m + 1][1..] == s[1..][..m] && s[m + 1..] == s[1..][m..];
  }

  lemma {:induction false} DropNothing<V>(s: seq<V>, matches: V -> bool)
    ensures DropFirst(s, matches, 0) == s
  {
    if s != [] {
      DropNothing(s[1..], matches);
      assert [s[0]] + s[1..] == s;
    }
  }

  /** The indices of the first `limit` matches from `i` on, ascending. */
  function Marks<V>(s: seq<V>, matches: V -> bool, i: nat, limit: nat): (r: seq<nat>)
    ensures |r| <= limit
    decreases |s| - i
  {
    if i >= |s| || limit == 0 then []
    else if matches(s[i]) then [i] + Marks(s, matches, i + 1, limit - 1)
    else Marks(s, matches, i + 1, limit)
  }

  /** Removing at every index of `marks`, from the last to the first. */
  function Cut<V>(s: seq<V>, marks: seq<nat>): seq<V> {
    if marks == [] then s else RemovedAt(Cut(s, marks[1..]), marks[0])
  }

  /** Removing backwards at the marked indices drops the marked elements and nothing else. */
  lemma {:induction false} CutMarks<V>(s: seq<V>, matches: V -> bool, i: nat, limit: nat)
    requires i <= |s|
    ensures Cut(s, Marks(s, matches, i, limit)) == s[..i] + DropFirst(s[i..], matches, limit)
    ensures |Marks(s, matches, i, limit)| == |s| - i - |DropFirst(s[i..], matches, limit)|
    decreases |s| - i
  {
    if i == |s| || limit == 0 {
      DropNothing(s[i..], matches);
      assert s[..i] + s[i..] == s;
      assert i == |s| ==> s[i..] == [];
    } else {
      assert s[i..][1..] == s[i + 1..];
      var rest := if matches(s[i]) then limit - 1 else limit;
      CutMarks(s, matches, i + 1, rest);
      var tail := DropFirst(s[i + 1..], matches, rest);
      CutHere(s, i, tail);
      if matches(s[i]) {
        assert Marks(s, matches, i, limit)[1..] == Marks(s, matches, i + 1, rest);
      }
    }
  }

  lemma CutHere<V>(s: seq<V>, i: nat, tail: seq<V>)
    requires i < |s|
    ensures RemovedAt(s[..i + 1] + tail, i) == s[..i] + tail
    ensures s[..i + 1] + tail == s[..i] + ([s[i]] + tail)
  {
  }

  /** Index of the first match, or the length. */
  function FirstMatch<V>(s: seq<V>, matches: V -> bool): (i: nat)
    ensures i <= |s| && (i < |s| ==> matches(s[i])) && forall j :: 0 <= j < i ==> !matches(s[j])
  {
    if s == [] || matches(s[0]) then 0 else 1 + FirstMatch(s[1..], matches)
  }

  // ---- the map ----

  class ListMap<V(0)> {
    var internal: map<string, Slice<V>>

    /** What a reader sees: each key's list. */
    ghost var lists: map<string, seq<V>>

    ghost function Arrays(): set<array<V>>
      reads this
    {
      set k <- internal :: internal[k].arr
    }

    /** Every list is what its slice shows, and no two keys share an array. */
    ghost predicate Valid()
      reads this, Arrays()
    {
      && internal.Keys == lists.Keys
      && (forall k <- internal :: Fits(internal[k]) && Visible(internal[k]) == lists[k])
      && (forall k <- internal, l <- internal :: k != l ==> internal[k].arr != internal[l].arr)
    }

    constructor ()
      ensures Valid() && lists == map[] && Arrays() == {}
    {
      internal, lists := map[], map[];
    }

    /** append: in place while the capacity lasts, otherwise into a new array of some larger capacity. */
    static method Append(list: Slice<V>, items: seq<V>) returns (r: Slice<V>)
      requires Fits(list)
      modifies list.arr
      ensures Fits(r) && (r.arr == list.arr || fresh(r.arr))
      ensures Visible(r) == old(Visible(list)) + items
    {
      var n := list.len + |items|;
      if list.off + n <= list.arr.Length {
        forall j | 0 <= j < |items| {
          list.arr[list.off + list.len + j] := items[j];
        }
        r := Slice(list.arr, list.off, n);
      } else {
        var cap: int := *;
        cap := if cap < n then n else cap;
        var grown := new V[cap];
        forall j | 0 <= j < list.len {
          grown[j] := list.arr[list.off + j];
        }
        forall j | 0 <= j < |items| {
          grown[list.len + j] := items[j];
        }
        r := Slice(grown, 0, n);
      }
    }

    /** All but `key`'s list, and the arrays, as Valid has them: what holds while that one list is being edited. */
    ghost predicate ValidBut(key: string)
      reads this, Arrays()
    {
      && internal.Keys <= lists.Keys + {key} && lists.Keys <= internal.Keys + {key}
      && (forall k <- internal :: k != key ==> k in lists && Fits(internal[k]) && Visible(internal[k]) == lists[k])
      && (forall k <- internal, l <- internal :: k != l ==> internal[k].arr != internal[l].arr)
    }

    /** Store: the key gets a slice of an array no other key uses. */
    method Store(key: string, list: Slice<V>)
      requires ValidBut(key) && Fits(list)
      requires forall k <- internal :: k != key ==> internal[k].arr != list.arr
      modifies this
      ensures Valid() && lists == old(lists)[key := Visible(list)]
      ensures Arrays() <= old(Arrays()) + {list.arr}
    {
      internal, lists := internal[key := list], lists[key := Visible(list)];
    }

    /** LoadOrStore with an empty list, which nothing sees before AddItem stores the list again. */
    method Load(key: string) returns (list: Slice<V>)
      requires Valid()
      ensures Fits(list) && Visible(list) == if key in lists then lists[key] else []
      ensures if key in internal then list == internal[key] else fresh(list.arr)
    {
      if key in internal {
        return internal[key];
      }
      var none := new V[0];
      return Slice(none, 0, 0);
    }

    method AddItem(key: string, items: seq<V>)
      requires Valid()
      modifies this, Arrays()
      ensures Valid() && fresh(Arrays() - old(Arrays()))
      ensures lists == old(lists)[key := (if key in old(lists) then old(lists)[key] else []) + items]
    {
      var list := Load(key);
      list := Append(list, items);
      Store(key, list);
    }

    method RemoveKey(key: string)
      requires Valid()
      modifies this
      ensures Valid() && Arrays() <= old(Arrays())
      ensures lists == old(lists) - {key}
    {
      internal, lists := internal - {key}, lists - {key};
    }

    /** remove: the slice keeps its array; only a removal in the middle moves elements. */
    static method Remove(list: Slice<V>, i: nat) returns (r: Slice<V>)
      requires Fits(list)
      modifies list.arr
      ensures Fits(r) && (r.arr == list.arr || fresh(r.arr))
      ensures Visible(r) == RemovedAt(old(Visible(list)), i)
    {
      if i > list.len - 1 {
        return list;
      }
      if i == 0 {
        if list.len > 1 {
          return Slice(list.arr, list.off + 1, list.len - 1);
        }
        var none := new V[0];
        return Slice(none, 0, 0);
      } else if i == list.len - 1 {
        return Slice(list.arr, list.off, i);
      } else {
        r := ShiftLeft(list, i);
      }
    }

    /** append(list[:i], list[i+1:]...): the elements after `i` move one place down in the same array. */
    static method ShiftLeft(list: Slice<V>, i: nat) returns (r: Slice<V>)
      requires Fits(list) && i < list.len
      modifies list.arr
      ensures Fits(r) && r.arr == list.arr
      ensures Visible(r) == RemovedAt(old(Visible(list)), i)
    {
      var a, from, to := list.arr, list.off + i, list.off + list.len - 1;
      forall j | from <= j < to {
        a[j] := a[j + 1];
      }
      r := Slice(a, list.off, list.len - 1);
      assert a[list.off..from] == old(a[list.off..from]);
      assert a[from..to] == old(a[from + 1..to + 1]);
      assert a[list.off..to] == a[list.off..from] + a[from..to];
    }

    /** Store(key, remove(list, i)). */
    method RemoveAndStore(key: string, i: nat)
      requires Valid() && key in internal
      modifies this, Arrays()
      ensures Valid() && fresh(Arrays() - old(Arrays()))
      ensures lists == old(lists)[key := RemovedAt(old(lists)[key], i)]
    {
      var list := Remove(internal[key], i);
      Store(key, list);
    }

    /** A negative index panics when the key is present, although it is documented as a no-op. */
    method RemoveItemAt(key: string, index: int) returns (panics: bool)
      requires Valid()
      modifies this, Arrays()
      ensures Valid() && fresh(Arrays() - old(Arrays()))
      ensures panics <==> key in old(lists) && index < 0
      ensures lists == if key in old(lists) && index >= 0
                            then old(lists)[key := RemovedAt(old(lists)[key], index)] else old(lists)
    {
      if key !in internal {
        return false;
      }
      if index < 0 {
        return true;
      }
      RemoveAndStore(key, index);
      return false;
    }

    method RemoveItem(key: string, matches: V -> bool) returns (removed: bool)
      requires Valid()
      modifies this, Arrays()
      ensures Valid() && fresh(Arrays() - old(Arrays()))
      ensures removed <==> key in old(lists) && FirstMatch(old(lists)[key], matches) < |old(lists)[key]|
      ensures lists == if key in old(lists)
                            then old(lists)[key := RemovedAt(old(lists)[key], FirstMatch(old(lists)[key], matches))]
                            else old(lists)
    {
      if key !in internal {
        return false;
      }
      var list := internal[key];
      var i := Find(list, matches);
      if i < list.len {
        RemoveAndStore(key, i);
        return true;
      }
      assert lists[key := lists[key]] == lists;
      return false;
    }

    /** The index loop of RemoveItem. */
    static method Find(list: Slice<V>, matches: V -> bool) returns (i: nat)
      requires Fits(list)
      ensures i == FirstMatch(Visible(list), matches)
    {
      i := 0;
      while i < list.len && !matches(list.arr[list.off + i])
        invariant i <= list.len && i <= FirstMatch(Visible(list), matches)
      {
        assert list.arr[list.off + i] == Visible(list)[i];
        i := i + 1;
      }
      assert i < list.len ==> list.arr[list.off + i] == Visible(list)[i];
    }

    /** The matching indices are collected first, then removed from the last to the first. */
    method RemoveItems(key: string, matches: V -> bool, limit: int) returns (removed: nat)
      requires Valid()
      modifies this, Arrays()
      ensures Valid() && fresh(Arrays() - old(Arrays()))
      ensures key !in old(lists) ==> lists == old(lists) && removed == 0
      ensures key in old(lists) ==>
        var s := old(lists)[key]; var left := DropFirst(s, matches, Limit(s, limit));
        lists == old(lists)[key := left] && removed == |s| - |left|
    {
      if key !in internal {
        return 0;
      }
      var list: Slice<V>;
      list, removed := RemoveMatches(internal[key], matches, limit);
      Store(key, list);
    }

    static method RemoveMatches(list: Slice<V>, matches: V -> bool, limit: int) returns (r: Slice<V>, removed: nat)
      requires Fits(list)
      modifies list.arr
      ensures Fits(r) && (r.arr == list.arr || fresh(r.arr))
      ensures var s := old(Visible(list));
        Visible(r) == DropFirst(s, matches, Limit(s, limit)) && removed == |s| - |Visible(r)|
    {
      var toRemove := CollectMatches(list, matches, limit);
      ghost var s := Visible(list);
      CutMarks(s, matches, 0, Limit(s, limit));
      assert s[0..] == s;
      r := RemoveBackwards(list, toRemove);
      return r, |toRemove|;
    }

    static lemma MarkHere(s: seq<V>, matches: V -> bool, i: nat, most: nat, done: seq<nat>)
      requires i < |s| && matches(s[i]) && |done| <= i && (|done| < most || most == |s|)
      ensures done + Marks(s, matches, i, most - |done|) == (done + [i]) + Marks(s, matches, i + 1, most - |done| - 1)
    {
    }

    static method CollectMatches(list: Slice<V>, matches: V -> bool, limit: int) returns (toRemove: seq<nat>)
      requires Fits(list)
      ensures toRemove == Marks(Visible(list), matches, 0, Limit(Visible(list), limit))
    {
      ghost var s := Visible(list);
      ghost var most := Limit(s, limit);
      toRemove := [];
      for i := 0 to list.len
        invariant |toRemove| <= i && (|toRemove| < most || most == |s|)
        invariant toRemove + Marks(s, matches, i, most - |toRemove|) == Marks(s, matches, 0, most)
      {
        assert list.arr[list.off + i] == s[i];
        if matches(list.arr[list.off + i]) {
          MarkHere(s, matches, i, most, toRemove);
          toRemove := toRemove + [i];
          if limit > 0 && |toRemove| >= limit {
            break;
          }
        }
      }
    }

    static method RemoveBackwards(list: Slice<V>, toRemove: seq<nat>) returns (r: Slice<V>)
      requires Fits(list)
      modifies list.arr
      ensures Fits(r) && (r.arr == list.arr || fresh(r.arr))
      ensures Visible(r) == Cut(old(Visible(list)), toRemove)
    {
      r := list;
      for i := |toRemove| downto 0
        invariant Fits(r) && (r.arr == list.arr || fresh(r.arr))
        invariant Visible(r) == Cut(old(Visible(list)), toRemove[i..])
      {
        r := Remove(r, toRemove[i]);
        assert toRemove[i..][1..] == toRemove[i + 1..];
      }
    }
  }
}
