/** Assigning keys of a map one after another, as `obj[key] = value` does in a
    loop: a later assignment to a key replaces an earlier one. Both the record
    the uncontrolled form builds and the error outputs it writes are filled
    this way. */
module Maps {
  import opened Text

  /** The map after the assignments `ws`, applied in order. */
  function Assign<K(==), V>(m: map<K, V>, ws: seq<(K, V)>): (r: map<K, V>)
    decreases |ws|
  {
    if ws == [] then m else Assign(m, ws[..|ws| - 1])[ws[|ws| - 1].0 := ws[|ws| - 1].1]
  }

  /** The position of the last assignment to `k`, if any. */
  function LastAssigned<K(==), V>(ws: seq<(K, V)>, k: K): (r: Option<nat>)
    ensures r.Some? ==> r.value < |ws| && ws[r.value].0 == k
    ensures r.Some? ==> forall j :: r.value < j < |ws| ==> ws[j].0 != k
    ensures r.None? <==> forall j :: 0 <= j < |ws| ==> ws[j].0 != k
    decreases |ws|
  {
    if ws == [] then None
    else if ws[|ws| - 1].0 == k then Some(|ws| - 1)
    else
      var r := LastAssigned(ws[..|ws| - 1], k);
      assert forall j :: 0 <= j < |ws| - 1 ==> ws[..|ws| - 1][j] == ws[j];
      r
  }

  /** A key is present after the assignments when it was before or was assigned;
      it then holds the last value assigned to it, or else its old value. */
  lemma {:induction false} AssignLookup<K, V>(m: map<K, V>, ws: seq<(K, V)>, k: K)
    ensures k in Assign(m, ws) <==> k in m || LastAssigned(ws, k).Some?
    ensures LastAssigned(ws, k).Some? ==> Assign(m, ws)[k] == ws[LastAssigned(ws, k).value].1
    ensures LastAssigned(ws, k).None? && k in m ==> Assign(m, ws)[k] == m[k]
    decreases |ws|
  {
    if ws != [] && ws[|ws| - 1].0 != k {
      AssignLookup(m, ws[..|ws| - 1], k);
    }
  }

  /** Assigning only keys that are already present keeps the set of keys. */
  lemma {:induction false} AssignKeepsKeys<K, V>(m: map<K, V>, ws: seq<(K, V)>)
    requires forall j :: 0 <= j < |ws| ==> ws[j].0 in m
    ensures Assign(m, ws).Keys == m.Keys
    decreases |ws|
  {
    if ws != [] {
      AssignKeepsKeys(m, ws[..|ws| - 1]);
    }
  }

  /** The assignments up to position `i`, then the one at `i`. */
  lemma AssignStep<K, V>(m: map<K, V>, ws: seq<(K, V)>, i: nat)
    requires i < |ws|
    ensures Assign(m, ws[..i + 1]) == Assign(m, ws[..i])[ws[i].0 := ws[i].1]
  {
    assert ws[..i + 1][..i] == ws[..i];
  }

  /** The keys of the assignments are pairwise different. */
  predicate DistinctKeys<K(==), V>(ws: seq<(K, V)>) {
    forall a, b :: 0 <= a < b < |ws| ==> ws[a].0 != ws[b].0
  }

  /** When no key is assigned twice, every assignment is still visible at the end. */
  lemma AssignDistinct<K, V>(m: map<K, V>, ws: seq<(K, V)>, j: nat)
    requires DistinctKeys(ws) && j < |ws|
    ensures ws[j].0 in Assign(m, ws) && Assign(m, ws)[ws[j].0] == ws[j].1
  {
    AssignLookup(m, ws, ws[j].0);
    var r := LastAssigned(ws, ws[j].0);
    assert r == Some(j);
  }

  /** A key that no assignment names keeps its old value. */
  lemma AssignOther<K, V>(m: map<K, V>, ws: seq<(K, V)>, k: K)
    requires k in m
    requires forall j :: 0 <= j < |ws| ==> ws[j].0 != k
    ensures k in Assign(m, ws) && Assign(m, ws)[k] == m[k]
  {
    AssignLookup(m, ws, k);
  }

  /** The position of the first assignment whose key is not in `m`, or the number
      of assignments when every key is present. */
  function FirstMissing<K(==), V>(m: map<K, V>, ws: seq<(K, V)>): (n: nat)
    ensures n <= |ws|
    ensures forall j :: 0 <= j < n ==> ws[j].0 in m
    ensures n < |ws| ==> ws[n].0 !in m
  {
    if ws == [] || ws[0].0 !in m then 0
    else
      var n := FirstMissing(m, ws[1..]);
      assert forall j :: 1 <= j < n + 1 ==> ws[j] == ws[1..][j - 1];
      n + 1
  }

  /** The first missing position is determined by the two properties it has. */
  lemma {:induction false} FirstMissingIs<K, V>(m: map<K, V>, ws: seq<(K, V)>, n: nat)
    requires n <= |ws|
    requires forall j :: 0 <= j < n ==> ws[j].0 in m
    requires n < |ws| ==> ws[n].0 !in m
    ensures FirstMissing(m, ws) == n
    decreases n
  {
    if n > 0 {
      assert forall j :: 0 <= j < n - 1 ==> ws[1..][j] == ws[j + 1];
      FirstMissingIs(m, ws[1..], n - 1);
    }
  }
}
