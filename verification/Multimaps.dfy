/** Maps from a key to a set, where an emptied set is dropped with its key, and maps from
    a key to a 64-bit counter. */
module Multimaps {

  type Multimap = map<string, set<string>>

  const U64_MAX: nat := 0xFFFF_FFFF_FFFF_FFFF

  function At(m: Multimap, k: string): set<string> {
    if k in m then m[k] else {}
  }

  ghost predicate NoEmptySets(m: Multimap) {
    forall k :: k in m ==> m[k] != {}
  }

  function Put(m: Multimap, k: string, x: string): (r: Multimap)
    ensures forall j :: At(r, j) == if j == k then At(m, j) + {x} else At(m, j)
    ensures NoEmptySets(m) ==> NoEmptySets(r)
  {
    m[k := At(m, k) + {x}]
  }

  function Del(m: Multimap, k: string, x: string): (r: Multimap)
    ensures NoEmptySets(m) ==> forall j :: At(r, j) == if j == k then At(m, j) - {x} else At(m, j)
    ensures NoEmptySets(m) ==> NoEmptySets(r)
  {
    if k !in m then m
    else if m[k] - {x} == {} then m - {k}
    else m[k := m[k] - {x}]
  }

  /** A multimap without empty sets is determined by its contents. */
  lemma Extensional(m: Multimap, w: Multimap)
    requires NoEmptySets(m) && NoEmptySets(w)
    requires forall k :: At(m, k) == At(w, k)
    ensures m == w
  {
    forall k ensures k in m <==> k in w {
      assert At(m, k) == At(w, k);
    }
    forall k | k in m ensures m[k] == w[k] {
      assert At(m, k) == At(w, k);
    }
  }

  ghost predicate Inverse(m: Multimap, w: Multimap) {
    forall k, x :: x in At(m, k) <==> k in At(w, x)
  }

  lemma InverseAfterPut(m: Multimap, w: Multimap, k: string, x: string)
    requires Inverse(m, w)
    ensures Inverse(Put(m, k, x), Put(w, x, k))
  {
  }

  lemma InverseAfterDel(m: Multimap, w: Multimap, k: string, x: string)
    requires NoEmptySets(m) && NoEmptySets(w) && Inverse(m, w)
    ensures Inverse(Del(m, k, x), Del(w, x, k))
  {
  }

  /** `fetch_sub(1)` and the release-mode `-= 1` wrap around at zero. */
  function Decr(n: nat): nat {
    if n == 0 then U64_MAX else n - 1
  }

  function CountOf(m: map<string, nat>, k: string): nat {
    if k in m then m[k] else 0
  }

  function Incr(m: map<string, nat>, k: string): map<string, nat> {
    m[k := CountOf(m, k) + 1]
  }

  /** Decrement a stored count in place. */
  function DecrAt(m: map<string, nat>, k: string): map<string, nat> {
    if k in m then m[k := Decr(m[k])] else m
  }

  // ---- cardinalities ----

  lemma CardAdd<T>(a: set<T>, x: T)
    ensures |a + {x}| == if x in a then |a| else |a| + 1
  {
    if x in a { assert a + {x} == a; }
  }

  lemma CardRemove<T>(a: set<T>, x: T)
    ensures |a - {x}| == if x in a then |a| - 1 else |a|
  {
    if x !in a { assert a - {x} == a; }
  }

  lemma {:induction false} CardSubset<T>(a: set<T>, b: set<T>)
    requires a <= b
    ensures |a| <= |b|
    ensures |a| == |b| ==> a == b
  {
    if a != {} {
      var x :| x in a;
      CardSubset(a - {x}, b - {x});
    }
  }
}
