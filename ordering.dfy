/** The `ordering` option of a model's Meta: the database returns the rows of
    a query sorted by one key, largest first ("-date_time", "-due_date").
    Rows with equal keys come back in no particular order. */
module Ordering {

  /** No row is listed twice. */
  ghost predicate Distinct(r: seq<nat>)
  {
    forall i, j :: 0 <= i < j < |r| ==> r[i] != r[j]
  }

  /** Every listed row has a key, and keys never increase along the list. */
  ghost predicate Descending(r: seq<nat>, key: map<nat, int>)
  {
    && (forall i :: 0 <= i < |r| ==> r[i] in key)
    && (forall i, j :: 0 <= i < j < |r| ==> key[r[i]] >= key[r[j]])
  }

  /** Places row `k` in a list sorted by descending key, before the first row
      whose key is not larger. */
  function InsertDescending(k: nat, r: seq<nat>, key: map<nat, int>): (r': seq<nat>)
    requires k in key
    ensures |r'| == |r| + 1
    decreases |r|
  {
    if r == [] || (r[0] in key && key[k] >= key[r[0]]) then
      [k] + r
    else
      [r[0]] + InsertDescending(k, r[1..], key)
  }

  /** The first row of a descending list has a key at least that of any
      later row. */
  lemma HeadDominates(r: seq<nat>, key: map<nat, int>, x: nat)
    requires Descending(r, key) && |r| > 0 && x in r[1..]
    ensures x in key && key[r[0]] >= key[x]
  {
    var i :| 0 <= i < |r[1..]| && r[1..][i] == x;
    assert r[i + 1] == x;
  }

  /** Inserting keeps the list descending and adds exactly `k`. */
  lemma {:induction false} InsertDescendingCorrect(k: nat, r: seq<nat>, key: map<nat, int>)
    requires k in key && Descending(r, key)
    ensures Descending(InsertDescending(k, r, key), key)
    ensures forall x :: x in InsertDescending(k, r, key) <==> x == k || x in r
    decreases |r|
  {
    var r' := InsertDescending(k, r, key);
    if r == [] || key[k] >= key[r[0]] {
      assert r' == [k] + r;
      forall j | 0 < j < |r'| ensures key[r'[0]] >= key[r'[j]] {
        if j > 1 { HeadDominates(r, key, r'[j]); }
      }
    } else {
      var rest := r[1..];
      assert Descending(rest, key);
      InsertDescendingCorrect(k, rest, key);
      var t := InsertDescending(k, rest, key);
      assert r' == [r[0]] + t;
      assert r == [r[0]] + rest;
      forall j | 0 < j < |r'| ensures key[r'[0]] >= key[r'[j]] {
        assert r'[j] == t[j - 1];
        assert t[j - 1] in t;
        if t[j - 1] != k { HeadDominates(r, key, t[j - 1]); }
      }
    }
  }

  /** Inserting a row that was not listed lists no row twice. */
  lemma {:induction false} InsertDescendingDistinct(k: nat, r: seq<nat>, key: map<nat, int>)
    requires k in key && Descending(r, key) && Distinct(r) && k !in r
    ensures Distinct(InsertDescending(k, r, key))
    decreases |r|
  {
    if r != [] && key[k] < key[r[0]] {
      var rest := r[1..];
      assert Descending(rest, key);
      assert Distinct(rest) by {
        forall i, j | 0 <= i < j < |rest| ensures rest[i] != rest[j] {
          assert rest[i] == r[i + 1] && rest[j] == r[j + 1];
        }
      }
      InsertDescendingDistinct(k, rest, key);
      InsertDescendingCorrect(k, rest, key);
      var t := InsertDescending(k, rest, key);
      var r' := InsertDescending(k, r, key);
      assert r' == [r[0]] + t;
      forall j | 0 < j < |r'| ensures r'[0] != r'[j] {
        assert r'[j] == t[j - 1] && t[j - 1] in t;
        if t[j - 1] != k {
          var i :| 0 <= i < |rest| && rest[i] == t[j - 1];
          assert r[i + 1] == t[j - 1];
        }
      }
    }
  }

  /** The rows of a query, that is the keys of `key`, listed once each in
      descending key order. */
  method ListDescending(key: map<nat, int>) returns (r: seq<nat>)
    ensures forall k :: k in r <==> k in key
    ensures Distinct(r)
    ensures Descending(r, key)
  {
    r := [];
    var rest := key.Keys;
    while rest != {}
      invariant rest <= key.Keys
      invariant forall k :: k in r <==> k in key && k !in rest
      invariant Distinct(r)
      invariant Descending(r, key)
      decreases rest
    {
      var k :| k in rest;
      InsertDescendingCorrect(k, r, key);
      InsertDescendingDistinct(k, r, key);
      r := InsertDescending(k, r, key);
      rest := rest - {k};
    }
  }
}
