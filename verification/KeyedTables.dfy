/** A DynamoDB table as a map from primary key to item, and the lookups batch operations are measured against. */
module KeyedTables {
  import opened Attributes
  import opened Sorting

  type Key = Item

  type Table = map<Key, Item>

  /** Every attribute of the key is in the item with the same value. */
  predicate Matches(key: Key, item: Item) {
    forall a :: a in key ==> a in item && item[a] == key[a]
  }

  predicate IsKey(schema: set<string>, key: Key) {
    key.Keys == schema
  }

  /** Items are stored under their own key attributes. */
  predicate IsTable(schema: set<string>, t: Table) {
    forall k :: k in t ==> IsKey(schema, k) && Matches(k, t[k])
  }

  function ItemAt(t: Table, k: Key): Option<Item> {
    if k in t then Some(t[k]) else None
  }

  /** An item carries one key. */
  lemma OneKey(schema: set<string>, k: Key, k': Key, item: Item)
    requires IsKey(schema, k) && IsKey(schema, k') && Matches(k, item) && Matches(k', item)
    ensures k == k'
  {
    assert forall a :: a in k ==> k[a] == k'[a];
  }

  /** The table's items for the requested keys, in order; a key without an item gives none. */
  function Found(t: Table, keys: seq<Key>): seq<Item> {
    if keys == [] then []
    else (if keys[0] in t then [t[keys[0]]] else []) + Found(t, keys[1..])
  }

  lemma {:induction false} FoundCat(t: Table, a: seq<Key>, b: seq<Key>)
    ensures Found(t, a + b) == Found(t, a) + Found(t, b)
  {
    if a == [] {
      assert a + b == b;
    } else {
      assert (a + b)[1..] == a[1..] + b;
      FoundCat(t, a[1..], b);
    }
  }

  lemma FoundOne(t: Table, k: Key, keys: seq<Key>)
    ensures Found(t, [k] + keys) == Found(t, [k]) + Found(t, keys)
  {
    FoundCat(t, [k], keys);
  }

  lemma {:induction false} FoundSplit(t: Table, keys: seq<Key>, i: nat)
    requires i < |keys|
    ensures multiset(Found(t, keys)) == multiset(Found(t, RemoveAt(keys, i))) + multiset(Found(t, [keys[i]]))
  {
    var head, tail := keys[0], keys[1..];
    assert keys == [head] + tail;
    FoundOne(t, head, tail);
    if i == 0 {
      assert RemoveAt(keys, i) == tail;
    } else {
      var less := RemoveAt(tail, i - 1);
      assert multiset(Found(t, tail)) == multiset(Found(t, less)) + multiset(Found(t, [keys[i]])) by {
        FoundSplit(t, tail, i - 1);
      }
      assert RemoveAt(keys, i) == [head] + less by { RemoveLater(keys, i); }
      FoundOne(t, head, less);
    }
  }

  /** Which items are found does not depend on the order of the keys. */
  lemma {:induction false} FoundPermuted(t: Table, a: seq<Key>, b: seq<Key>)
    requires multiset(a) == multiset(b)
    ensures multiset(Found(t, a)) == multiset(Found(t, b))
    decreases |a|
  {
    if a == [] {
      assert |b| == |multiset(b)| == 0;
    } else {
      SameElements(a, b, a[0]);
      var i :| 0 <= i < |b| && b[i] == a[0];
      Removed(a, b, i);
      FoundPermuted(t, a[1..], RemoveAt(b, i));
      FoundSplit(t, b, i);
      FoundOne(t, a[0], a[1..]);
      assert a == [a[0]] + a[1..];
    }
  }

  lemma {:induction false} FoundMember(t: Table, keys: seq<Key>, x: Item)
    ensures x in Found(t, keys) <==> exists i :: 0 <= i < |keys| && keys[i] in t && t[keys[i]] == x
  {
    if keys != [] {
      FoundMember(t, keys[1..], x);
      assert keys == [keys[0]] + keys[1..];
      if i :| 0 <= i < |keys| && keys[i] in t && t[keys[i]] == x {
        if i > 0 {
          assert keys[1..][i - 1] == keys[i];
        }
      }
    }
  }

  predicate Distinct(keys: seq<Key>) {
    forall i, j :: 0 <= i < j < |keys| ==> keys[i] != keys[j]
  }

  /** What is left after one more call, at this rate. */
  lemma RateStep(left: nat, before: nat, rate: nat, attempt: nat, total: nat)
    requires before + attempt * rate <= total && (left == 0 || left + rate <= before)
    ensures left > 0 ==> left + (attempt + 1) * rate <= total
  {
    assert (attempt + 1) * rate == attempt * rate + rate;
  }
}
