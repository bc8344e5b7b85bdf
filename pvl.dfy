/** The key-value tree that `pvl.dumps` turns into the textual label. Only the
    structure is modelled; the text format is produced by an encoder outside this model. */
module Pvl {
  import opened Wrappers

  /** A PVL value. Blocks come in two kinds: `pvl.dumps` writes a plain dict as an
      `Object` block and a `PVLGroup` as a `Group` block, and an ISIS reader looks each
      one up by its kind. */
  datatype PvlValue =
    | PInt(i: int)
    | PText(s: string)
    | PObject(entries: seq<PvlEntry>)
    | PGroup(entries: seq<PvlEntry>)
  {
    predicate IsBlock() { PObject? || PGroup? }
  }

  datatype PvlEntry = PvlEntry(key: string, value: PvlValue)

  /** The value under the first entry named `key`, if any. */
  function Find(entries: seq<PvlEntry>, key: string): Option<PvlValue>
  {
    if entries == [] then None
    else if entries[0].key == key then Some(entries[0].value)
    else Find(entries[1..], key)
  }

  /** A lookup fails exactly when no entry has the key, and a found value is the
      value of an entry with that key. */
  lemma {:induction false} FindSpec(entries: seq<PvlEntry>, key: string)
    ensures Find(entries, key).None? <==> forall i :: 0 <= i < |entries| ==> entries[i].key != key
    ensures Find(entries, key).Some? ==>
              exists i :: 0 <= i < |entries| && entries[i].key == key && entries[i].value == Find(entries, key).value
  {
    if entries != [] && entries[0].key != key {
      FindSpec(entries[1..], key);
      if Find(entries, key).Some? {
        var i :| 0 <= i < |entries| - 1 && entries[1..][i].key == key && entries[1..][i].value == Find(entries, key).value;
        assert entries[i + 1].key == key;
      }
    }
  }

  /** The value reached by following `path` through nested blocks of either kind. */
  function Get(entries: seq<PvlEntry>, path: seq<string>): Option<PvlValue>
    requires path != []
    decreases |path|
  {
    match Find(entries, path[0])
    case None => None
    case Some(v) =>
      if |path| == 1 then Some(v)
      else if v.IsBlock() then Get(v.entries, path[1..])
      else None
  }
  /** The first entry named `key` decides the lookup. */
  lemma {:induction false} FindFirst(entries: seq<PvlEntry>, key: string, i: nat)
    requires i < |entries| && entries[i].key == key
    requires forall j :: 0 <= j < i ==> entries[j].key != key
    ensures Find(entries, key) == Some(entries[i].value)
  {
    if i > 0 {
      FindFirst(entries[1..], key, i - 1);
    }
  }
  /** No two entries share a key, as in a Python dict. */
  predicate DistinctKeys(entries: seq<PvlEntry>)
  {
    forall i, j :: 0 <= i < j < |entries| ==> entries[i].key != entries[j].key
  }

  /** With distinct keys the order of the entries does not matter to a lookup, so the
      order in which a dict hands its items to `pvl.dumps` changes no value a reader finds. */
  lemma FindReorder(a: seq<PvlEntry>, b: seq<PvlEntry>, key: string)
    requires DistinctKeys(a) && multiset(a) == multiset(b)
    ensures Find(a, key) == Find(b, key)
  {
    FindSpec(a, key);
    FindSpec(b, key);
    if Find(b, key).Some? {
      var j :| 0 <= j < |b| && b[j].key == key && b[j].value == Find(b, key).value;
      assert b[j] in multiset(a);
      var i :| 0 <= i < |a| && a[i] == b[j];
      FindFirstDistinct(a, key, i);
    } else {
      forall i | 0 <= i < |a|
        ensures a[i].key != key
      {
        assert a[i] in multiset(b);
      }
    }
  }

  /** With distinct keys, any entry with the key is the one a lookup finds. */
  lemma FindFirstDistinct(entries: seq<PvlEntry>, key: string, i: nat)
    requires DistinctKeys(entries) && i < |entries| && entries[i].key == key
    ensures Find(entries, key) == Some(entries[i].value)
  {
    FindFirst(entries, key, i);
  }

  /** A three-step path goes through two nested blocks. */
  lemma GetPath3(entries: seq<PvlEntry>, a: string, b: string, c: string, v1: PvlValue, v2: PvlValue)
    requires v1.IsBlock() && v2.IsBlock()
    requires Find(entries, a) == Some(v1) && Find(v1.entries, b) == Some(v2)
    ensures Get(entries, [a, b]) == Some(v2)
    ensures Get(entries, [a, b, c]) == Find(v2.entries, c)
  {
    assert [a, b, c][1..] == [b, c];
    assert [b, c][1..] == [c];
    assert [a, b][1..] == [b];
    assert Get(entries, [a, b, c]) == Get(v1.entries, [b, c]);
    assert Get(v1.entries, [b, c]) == Get(v2.entries, [c]);
  }
}
