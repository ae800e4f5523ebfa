/** The three kinds of key that working memory uses in one flat key space. */
module WorkingKeys {
  import opened Prelude

  const PREFIX := "acumius:working:"

  function RecordKey(namespace: string, did: string, id: Uuid): string {
    PREFIX + namespace + ":" + did + ":" + id
  }

  function IndexKey(id: Uuid): string {
    PREFIX + "index:" + id
  }

  function LatestKey(namespace: string, did: string): string {
    PREFIX + namespace + ":" + did + ":latest"
  }

  /** The last 36 characters of a record or index key are its id. */
  lemma KeysEndInId(namespace: string, did: string, id: Uuid)
    ensures var k := RecordKey(namespace, did, id);
            |k| >= 36 && k[|k| - 36..] == id && k[..|k| - 36] == PREFIX + namespace + ":" + did + ":"
    ensures var k := IndexKey(id);
            |k| >= 36 && k[|k| - 36..] == id && k[..|k| - 36] == PREFIX + "index:"
  {
  }

  /** "index:" has one colon, at its end; a namespace and a DID always make two. */
  lemma IndexIsNotANamePair(namespace: string, did: string)
    ensures PREFIX + namespace + ":" + did + ":" != PREFIX + "index:"
  {
    var a, b := PREFIX + namespace + ":" + did + ":", PREFIX + "index:";
    var p := |PREFIX| + |namespace|;
    assert a[p] == ':';
    if |a| == |b| {
      assert |namespace| < 5;
      assert b[p] == "index:"[|namespace|];
    }
  }

  /** No record key is an index key, whatever the names contain. */
  lemma RecordIsNotIndex(namespace: string, did: string, x: Uuid, y: Uuid)
    ensures RecordKey(namespace, did, x) != IndexKey(y)
  {
    KeysEndInId(namespace, did, x);
    KeysEndInId(namespace, did, y);
    IndexIsNotANamePair(namespace, did);
  }

  /** Record keys coincide exactly for one id under names that read the same when joined by a colon. */
  lemma RecordKeysEqual(namespace: string, did: string, x: Uuid, namespace': string, did': string, y: Uuid)
    ensures RecordKey(namespace, did, x) == RecordKey(namespace', did', y)
       <==> x == y && namespace + ":" + did == namespace' + ":" + did'
  {
    KeysEndInId(namespace, did, x);
    KeysEndInId(namespace', did', y);
    var a, b := namespace + ":" + did, namespace' + ":" + did';
    assert RecordKey(namespace, did, x) == PREFIX + a + ":" + x;
    assert RecordKey(namespace', did', y) == PREFIX + b + ":" + y;
    assert (PREFIX + a + ":")[|PREFIX|..|PREFIX| + |a|] == a;
    assert (PREFIX + b + ":")[|PREFIX|..|PREFIX| + |b|] == b;
    assert PREFIX + namespace + ":" + did + ":" == PREFIX + a + ":";
    assert PREFIX + namespace' + ":" + did' + ":" == PREFIX + b + ":";
  }

  lemma IndexKeysDiffer(x: Uuid, y: Uuid)
    requires x != y
    ensures IndexKey(x) != IndexKey(y)
  {
    KeysEndInId("", "", x);
    KeysEndInId("", "", y);
  }

  /** Latest keys coincide exactly for names that read the same when joined by a colon. */
  lemma LatestKeysEqual(namespace: string, did: string, namespace': string, did': string)
    ensures (LatestKey(namespace, did) == LatestKey(namespace', did'))
       <==> (namespace + ":" + did == namespace' + ":" + did')
  {
    var a, b := namespace + ":" + did, namespace' + ":" + did';
    assert LatestKey(namespace, did) == PREFIX + a + ":latest";
    assert LatestKey(namespace', did') == PREFIX + b + ":latest";
    assert (PREFIX + a + ":latest")[|PREFIX|..|PREFIX| + |a|] == a;
    assert (PREFIX + b + ":latest")[|PREFIX|..|PREFIX| + |b|] == b;
  }

  lemma LatestColon(namespace: string, did: string)
    ensures var k := LatestKey(namespace, did); |k| >= 7 && k[|k| - 7] == ':'
  {
  }

  /** No latest key is a record or an index key: seven places from its end stands a colon. */
  lemma LatestIsNeither(namespace: string, did: string, namespace': string, did': string, id: Uuid)
    ensures LatestKey(namespace, did) != RecordKey(namespace', did', id)
    ensures LatestKey(namespace, did) != IndexKey(id)
  {
    LatestColon(namespace, did);
    KeysEndInId(namespace', did', id);
    var r, i := RecordKey(namespace', did', id), IndexKey(id);
    assert r[|r| - 7] == id[29] && i[|i| - 7] == id[29];
  }
}
