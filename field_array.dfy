/** A PHP `array<string, FieldDefinition>`: an ordered map. Keys are unique, they keep the
    order in which they were first written, and writing an existing key replaces its value
    in place. */
module FieldArrays {
  import opened FieldDefinitions

  /** No name occurs twice. */
  predicate Distinct(s: seq<string>) {
    forall i, j | 0 <= i < j < |s| :: s[i] != s[j]
  }

  /** The key order and the key-to-field map of an array. */
  datatype OrderedFields = OrderedFields(keys: seq<string>, entries: map<string, FieldDefinition>)

  /** The keys are listed once each, and they are exactly the keys of the map. */
  predicate WellFormed(a: OrderedFields) {
    && Distinct(a.keys)
    && (forall k | k in a.entries :: k in a.keys)
    && (forall k | k in a.keys :: k in a.entries)
  }

  type FieldArray = a: OrderedFields | WellFormed(a) witness OrderedFields([], map[])

  /** `[]` */
  const Empty: FieldArray := OrderedFields([], map[])

  /** A sequence of distinct names has as many elements as it has different names. */
  lemma {:induction false} DistinctCardinality(s: seq<string>)
    requires Distinct(s)
    ensures |set k | k in s| == |s|
  {
    if s != [] {
      var init := s[..|s| - 1];
      var last := s[|s| - 1];
      assert Distinct(init);
      DistinctCardinality(init);
      assert (set k | k in s) == (set k | k in init) + {last};
      assert last !in (set k | k in init);
    }
  }

  /** The key order lists every entry exactly once. */
  lemma KeysCoverEntries(a: FieldArray)
    ensures |a.keys| == |a.entries|
  {
    DistinctCardinality(a.keys);
    assert a.entries.Keys == set k | k in a.keys;
  }

  /** `count($a)`: the number of entries, read off the key order. */
  function Count(a: FieldArray): (n: nat)
    ensures n == |a.entries|
  {
    KeysCoverEntries(a);
    |a.keys|
  }

  /** `$a[$k] = $v`: `k` now maps to `v` and every other key keeps its field; a new key is
      appended after the existing ones, an existing key keeps its position. */
  function Put(a: FieldArray, k: string, v: FieldDefinition): (r: FieldArray)
    ensures k in r.entries && r.entries[k] == v
    ensures forall k' | k' != k :: (k' in r.entries <==> k' in a.entries)
    ensures forall k' | k' != k && k' in a.entries :: r.entries[k'] == a.entries[k']
    ensures a.keys <= r.keys
  {
    if k in a.entries then
      OrderedFields(a.keys, a.entries[k := v])
    else
      OrderedFields(a.keys + [k], a.entries[k := v])
  }

  /** Writing an existing key leaves the count as it was; writing a new key adds one. */
  lemma PutCount(a: FieldArray, k: string, v: FieldDefinition)
    ensures Count(Put(a, k, v)) == if k in a.entries then Count(a) else Count(a) + 1
  {
  }

  /** The keys that a list of pairs mentions. */
  function KeysOf(ps: seq<(string, FieldDefinition)>): set<string> {
    set p | p in ps :: p.0
  }

  /** The keys of a non-empty list are those of all but its last pair, and the last pair's. */
  lemma KeysOfInit(ps: seq<(string, FieldDefinition)>)
    requires ps != []
    ensures KeysOf(ps) == KeysOf(ps[..|ps| - 1]) + {ps[|ps| - 1].0}
  {
    var init := ps[..|ps| - 1];
    forall q | q in ps ensures q in init || q == ps[|ps| - 1] {
      var i :| 0 <= i < |ps| && ps[i] == q;
      if i < |ps| - 1 {
        assert init[i] == q;
      }
    }
  }

  /** The array literal `[k0 => v0, k1 => v1, ...]`, which is the same as writing each pair in
      turn into `[]`: a later pair with a repeated key replaces the earlier value. Its keys are
      exactly the keys the pairs mention, and it has at most one entry per pair. */
  function FromPairs(ps: seq<(string, FieldDefinition)>): (r: FieldArray)
    ensures r.entries.Keys == KeysOf(ps)
    ensures Count(r) <= |ps|
  {
    if ps == [] then Empty
    else
      var init := ps[..|ps| - 1];
      var last := ps[|ps| - 1];
      var r := Put(FromPairs(init), last.0, last.1);
      PutCount(FromPairs(init), last.0, last.1);
      KeysOfInit(ps);
      r
  }

  /** The last pair written for a key decides its field. */
  lemma {:induction false} FromPairsLastWins(ps: seq<(string, FieldDefinition)>, i: nat)
    requires i < |ps|
    requires forall j | i < j < |ps| :: ps[j].0 != ps[i].0
    ensures ps[i].0 in FromPairs(ps).entries
    ensures FromPairs(ps).entries[ps[i].0] == ps[i].1
  {
    if i < |ps| - 1 {
      var init := ps[..|ps| - 1];
      assert forall j | i < j < |init| :: init[j] == ps[j];
      FromPairsLastWins(init, i);
    }
  }

  /** The number of entries is the number of distinct keys the pairs mention. */
  lemma FromPairsCount(ps: seq<(string, FieldDefinition)>)
    ensures Count(FromPairs(ps)) == |KeysOf(ps)|
  {
    assert FromPairs(ps).entries.Keys == KeysOf(ps);
  }

  /** The pairs of an array, in key order. */
  function Pairs(a: FieldArray): seq<(string, FieldDefinition)> {
    seq(|a.keys|, i requires 0 <= i < |a.keys| => (a.keys[i], a.entries[a.keys[i]]))
  }

  /** The first `n` keys of an array with their fields. */
  function Take(a: FieldArray, n: nat): (r: FieldArray)
    requires n <= |a.keys|
    ensures r.keys == a.keys[..n]
    ensures forall k | k in r.entries :: k in a.entries && r.entries[k] == a.entries[k]
  {
    assert forall i | 0 <= i < n :: a.keys[..n][i] == a.keys[i];
    OrderedFields(a.keys[..n], map k | k in a.keys[..n] :: a.entries[k])
  }

  /** Appending a pair to the literal writes that pair last. */
  lemma FromPairsSnoc(ps: seq<(string, FieldDefinition)>, p: (string, FieldDefinition))
    ensures FromPairs(ps + [p]) == Put(FromPairs(ps), p.0, p.1)
  {
    assert (ps + [p])[..|ps|] == ps;
  }

  /** Writing one more pair of a list extends the array built from the pairs before it. */
  lemma FromPairsStep(ps: seq<(string, FieldDefinition)>, i: nat)
    requires i < |ps|
    ensures FromPairs(ps[..i + 1]) == Put(FromPairs(ps[..i]), ps[i].0, ps[i].1)
  {
    assert ps[..i + 1] == ps[..i] + [ps[i]];
    FromPairsSnoc(ps[..i], ps[i]);
  }

  /** The first `n` keys of an array followed by key `n`. */
  lemma TakeSnoc(a: FieldArray, n: nat)
    requires n < |a.keys|
    ensures a.keys[n] !in Take(a, n).entries
    ensures Put(Take(a, n), a.keys[n], a.entries[a.keys[n]]) == Take(a, n + 1)
  {
    var k := a.keys[n];
    var prev := Take(a, n);
    assert forall i | 0 <= i < n :: prev.keys[i] == a.keys[i];
    assert a.keys[..n + 1] == a.keys[..n] + [k];
    var r := Put(prev, k, a.entries[k]);
    var want := Take(a, n + 1);
    assert r.entries == want.entries by {
      forall x | x in want.entries ensures x in r.entries && r.entries[x] == want.entries[x] {
        if x != k {
          assert x in a.keys[..n];
        }
      }
    }
  }

  /** Writing the first `n` pairs of an array into `[]` rebuilds its first `n` entries. */
  lemma {:induction false} FromPairsPrefix(a: FieldArray, n: nat)
    requires n <= |a.keys|
    ensures FromPairs(Pairs(a)[..n]) == Take(a, n)
  {
    if n == 0 {
      assert Pairs(a)[..0] == [];
      assert Take(a, 0).entries == map[];
    } else {
      var k := a.keys[n - 1];
      assert Pairs(a)[..n] == Pairs(a)[..n - 1] + [(k, a.entries[k])];
      FromPairsSnoc(Pairs(a)[..n - 1], (k, a.entries[k]));
      FromPairsPrefix(a, n - 1);
      TakeSnoc(a, n - 1);
    }
  }

  /** All keys of an array with their fields are the array. */
  lemma TakeAll(a: FieldArray)
    ensures Take(a, |a.keys|) == a
  {
    assert a.keys[..|a.keys|] == a.keys;
    assert Take(a, |a.keys|).entries == a.entries;
  }

  /** Round trip: an array equals the array built by writing its pairs in order into `[]`, so a
      table given whole and a table built by adding the same fields one by one are equal. */
  lemma FromPairsOfPairs(a: FieldArray)
    ensures FromPairs(Pairs(a)) == a
  {
    var ps := Pairs(a);
    assert ps[..|ps|] == ps;
    FromPairsPrefix(a, |a.keys|);
    TakeAll(a);
  }

  /** Writing a key twice keeps only the second field and one entry for the key. */
  lemma PutTwice(a: FieldArray, k: string, v1: FieldDefinition, v2: FieldDefinition)
    ensures Put(Put(a, k, v1), k, v2) == Put(a, k, v2)
    ensures Count(Put(Put(a, k, v1), k, v2)) == Count(Put(a, k, v1))
  {
    var once := Put(a, k, v1);
    var keys := if k in a.entries then a.keys else a.keys + [k];
    assert once == OrderedFields(keys, a.entries[k := v1]);
    assert Put(once, k, v2) == OrderedFields(keys, a.entries[k := v1][k := v2]);
    assert a.entries[k := v1][k := v2] == a.entries[k := v2];
    PutCount(once, k, v2);
  }

}
