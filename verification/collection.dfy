/** A document collection of the store: documents addressed by a string key, kept
    in storage order. Both the `events` collection and each event's `comments`
    sub-collection are collections of this kind. */
module Collection {
  import opened Wrappers

  /** One stored document: its key (the document id) and its data. */
  datatype Doc<T> = Doc(key: string, data: T)

  /** The keys in use. */
  function Keys<T>(docs: seq<Doc<T>>): set<string> {
    set i | 0 <= i < |docs| :: docs[i].key
  }

  /** No key addresses two documents (what the store guarantees). */
  ghost predicate DistinctKeys<T>(docs: seq<Doc<T>>) {
    forall i, j :: 0 <= i < j < |docs| ==> docs[i].key != docs[j].key
  }

  /** A document read: the data stored under `key`, if any. */
  function Lookup<T>(docs: seq<Doc<T>>, key: string): (r: Option<T>)
    ensures r.Some? <==> key in Keys(docs)
    ensures r.Some? ==> Doc(key, r.value) in docs
  {
    if |docs| == 0 then None
    else if docs[0].key == key then Some(docs[0].data)
    else
      assert Keys(docs) == {docs[0].key} + Keys(docs[1..]) by {
        assert forall i :: 0 < i < |docs| ==> docs[i].key == docs[1..][i - 1].key;
      }
      Lookup(docs[1..], key)
  }

  /** A full-replace write (`document(key).set(data)`): creates the document or
      overwrites all of its data. */
  function Put<T>(docs: seq<Doc<T>>, key: string, data: T): (r: seq<Doc<T>>)
    ensures Lookup(r, key) == Some(data)
    ensures forall k :: k != key ==> Lookup(r, k) == Lookup(docs, k)
    ensures Keys(r) == Keys(docs) + {key}
    ensures DistinctKeys(docs) ==> DistinctKeys(r)
  {
    if |docs| == 0 then
      ConsFacts(Doc(key, data), []);
      [Doc(key, data)]
    else if docs[0].key == key then
      PutHere(docs, data);
      [Doc(key, data)] + docs[1..]
    else
      var rest := Put(docs[1..], key, data);
      PutFurther(docs, rest, key, data);
      PutFurtherKeys(docs, rest, key);
      [docs[0]] + rest
  }

  /** `Put` when the first document has the key: it is replaced. */
  lemma PutHere<T>(docs: seq<Doc<T>>, data: T)
    requires |docs| > 0
    ensures var r, key := [Doc(docs[0].key, data)] + docs[1..], docs[0].key;
      && Lookup(r, key) == Some(data)
      && (forall k :: k != key ==> Lookup(r, k) == Lookup(docs, k))
      && Keys(r) == Keys(docs) + {key}
      && (DistinctKeys(docs) ==> DistinctKeys(r))
  {
    HeadFacts(docs);
    ConsFacts(Doc(docs[0].key, data), docs[1..]);
  }

  /** `Put` when the key lies further on: the first document stays in front of
      the tail's `Put`, and reads see the same as through the tail. */
  lemma PutFurther<T>(docs: seq<Doc<T>>, rest: seq<Doc<T>>, key: string, data: T)
    requires |docs| > 0 && docs[0].key != key
    requires Lookup(rest, key) == Some(data)
    requires forall k :: k != key ==> Lookup(rest, k) == Lookup(docs[1..], k)
    ensures Lookup([docs[0]] + rest, key) == Some(data)
    ensures forall k :: k != key ==> Lookup([docs[0]] + rest, k) == Lookup(docs, k)
  {
    HeadFacts(docs);
    ConsFacts(docs[0], rest);
  }

  /** The keys of `Put` past the first document. */
  lemma PutFurtherKeys<T>(docs: seq<Doc<T>>, rest: seq<Doc<T>>, key: string)
    requires |docs| > 0 && docs[0].key != key
    requires Keys(rest) == Keys(docs[1..]) + {key}
    requires DistinctKeys(docs[1..]) ==> DistinctKeys(rest)
    ensures Keys([docs[0]] + rest) == Keys(docs) + {key}
    ensures DistinctKeys(docs) ==> DistinctKeys([docs[0]] + rest)
  {
    HeadFacts(docs);
    ConsFacts(docs[0], rest);
  }

  /** A delete (`document(key).delete()`): no document is left under `key`;
      deleting a missing document is not an error. */
  function Remove<T>(docs: seq<Doc<T>>, key: string): (r: seq<Doc<T>>)
    ensures Lookup(r, key) == None
    ensures forall k :: k != key ==> Lookup(r, k) == Lookup(docs, k)
    ensures Keys(r) == Keys(docs) - {key}
    ensures DistinctKeys(docs) ==> DistinctKeys(r)
  {
    if |docs| == 0 then []
    else
      var rest := Remove(docs[1..], key);
      HeadFacts(docs);
      if docs[0].key == key then rest
      else
        ConsFacts(docs[0], rest);
        [docs[0]] + rest
  }

  /** How keys, lookups and distinctness see a document put in front. */
  lemma ConsFacts<T>(d: Doc<T>, docs: seq<Doc<T>>)
    ensures Keys([d] + docs) == {d.key} + Keys(docs)
    ensures forall k :: Lookup([d] + docs, k) == if d.key == k then Some(d.data) else Lookup(docs, k)
    ensures DistinctKeys([d] + docs) <==> d.key !in Keys(docs) && DistinctKeys(docs)
  {
    var s := [d] + docs;
    assert s[1..] == docs;
    forall k | k in Keys(s) ensures k in {d.key} + Keys(docs) {
      var i :| 0 <= i < |s| && s[i].key == k;
      if i > 0 { assert docs[i - 1].key == k; }
    }
    forall k | k in {d.key} + Keys(docs) ensures k in Keys(s) {
      if k == d.key { assert s[0].key == k; }
      else {
        var i :| 0 <= i < |docs| && docs[i].key == k;
        assert s[i + 1].key == k;
      }
    }
    if DistinctKeys(s) {
      forall i, j | 0 <= i < j < |docs| ensures docs[i].key != docs[j].key {
        assert s[i + 1] == docs[i] && s[j + 1] == docs[j];
      }
      assert forall i :: 0 <= i < |docs| ==> docs[i].key == s[i + 1].key != s[0].key;
    }
    if d.key !in Keys(docs) && DistinctKeys(docs) {
      forall i, j | 0 <= i < j < |s| ensures s[i].key != s[j].key {
        assert s[j] == docs[j - 1];
        if i > 0 { assert s[i] == docs[i - 1]; }
        else { assert docs[j - 1].key in Keys(docs); }
      }
    }
  }

  /** `ConsFacts` for a non-empty collection split into its head and tail. */
  lemma HeadFacts<T>(docs: seq<Doc<T>>)
    requires |docs| > 0
    ensures Keys(docs) == {docs[0].key} + Keys(docs[1..])
    ensures forall k :: Lookup(docs, k) == if docs[0].key == k then Some(docs[0].data) else Lookup(docs[1..], k)
    ensures DistinctKeys(docs) <==> docs[0].key !in Keys(docs[1..]) && DistinctKeys(docs[1..])
  {
    ConsFacts(docs[0], docs[1..]);
    assert docs == [docs[0]] + docs[1..];
  }

  /** The length of the longest key. */
  function MaxKeyLength<T>(docs: seq<Doc<T>>): (n: nat)
    ensures forall i :: 0 <= i < |docs| ==> |docs[i].key| <= n
  {
    if |docs| == 0 then 0
    else
      var m := MaxKeyLength(docs[1..]);
      assert forall i :: 0 < i < |docs| ==> docs[i] == docs[1..][i - 1];
      if |docs[0].key| > m then |docs[0].key| else m
  }

  /** The key the store assigns on `add`: one not in use. The store draws it at
      random; here it is a key longer than every key in use. */
  function FreshKey<T>(docs: seq<Doc<T>>): (k: string)
    ensures k !in Keys(docs)
  {
    seq(MaxKeyLength(docs) + 1, _ => 'k')
  }

  /** An insert (`add(data)`): stores `data` under a fresh key and returns the key. */
  function Add<T>(docs: seq<Doc<T>>, data: T): (r: (seq<Doc<T>>, string))
    ensures r.1 !in Keys(docs)
    ensures Lookup(r.0, r.1) == Some(data)
    ensures forall k :: k != r.1 ==> Lookup(r.0, k) == Lookup(docs, k)
    ensures Keys(r.0) == Keys(docs) + {r.1}
    ensures DistinctKeys(docs) ==> DistinctKeys(r.0)
  {
    var key := FreshKey(docs);
    (Put(docs, key, data), key)
  }
}
