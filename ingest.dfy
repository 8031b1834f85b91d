/** The entry loop of `update` (feed.py): each entry that normalises is observed,
    and inserted unless an article with its guid hash is already stored, in
    whichever feed. The loop state is a `Batch`. */
module Ingestion {
  import opened Records
  import opened Store
  import opened Entries

  /** The article table, the next article id, the guid hashes observed so far and
      the number of rows inserted (`n_new_articles`). */
  datatype Batch = Batch(articles: map<int, Article>, nextId: int, observed: seq<string>, added: nat)

  /** One pass of the loop body. */
  function IngestEntry(b: Batch, e: Entry, feedId: int, now: int, hash: Hasher): Batch
  {
    match CreateArticle(e, feedId, now, hash)
    case Err(_) => b
    case Ok(a) =>
      var observed := b.observed + [a.guidHash];
      if HashInStore(b.articles, a.guidHash) then b.(observed := observed)
      else b.(articles := b.articles[b.nextId := a.(id := b.nextId)], nextId := b.nextId + 1,
              observed := observed, added := b.added + 1)
  }

  /** One pass: an entry that raises is skipped; one that converts is observed, and stored
      under the next id exactly when no row had its hash. */
  lemma IngestEntryEffect(b: Batch, e: Entry, feedId: int, now: int, hash: Hasher)
    ensures var r := IngestEntry(b, e, feedId, now, hash);
            var c := CreateArticle(e, feedId, now, hash);
      && (c.Err? ==> r == b)
      && (c.Ok? ==> r.observed == b.observed + [c.value.guidHash] && HashInStore(r.articles, c.value.guidHash))
      && (r.added == b.added + 1 <==> c.Ok? && !HashInStore(b.articles, c.value.guidHash))
      && (r.added != b.added + 1 ==> r.articles == b.articles && r.nextId == b.nextId && r.added == b.added)
      && (r.added == b.added + 1 ==> r.nextId == b.nextId + 1 && r.articles == b.articles[b.nextId := c.value.(id := b.nextId)])
  {
    var c := CreateArticle(e, feedId, now, hash);
    if c.Ok? && !HashInStore(b.articles, c.value.guidHash) {
      var arts := b.articles[b.nextId := c.value.(id := b.nextId)];
      assert arts[b.nextId].guidHash == c.value.guidHash;
    }
  }

  /** The loop over `es` in source order. */
  function Ingest(b: Batch, es: seq<Entry>, feedId: int, now: int, hash: Hasher): (r: Batch)
    // the counter counts the ids handed out, and the observed list only grows
    ensures r.added >= b.added && r.nextId - b.nextId == r.added - b.added
    ensures b.observed <= r.observed
    decreases |es|
  {
    if es == [] then b
    else IngestEntry(Ingest(b, es[..|es| - 1], feedId, now, hash), es[|es| - 1], feedId, now, hash)
  }

  /** The hashes of the entries that normalise, in source order. */
  function Observed(es: seq<Entry>, hash: Hasher): (r: seq<string>)
    ensures |r| <= |es|
    decreases |es|
  {
    if es == [] then []
    else
      var last := es[|es| - 1];
      Observed(es[..|es| - 1], hash) + (if GuidHash(last, hash).Some? then [GuidHash(last, hash).value] else [])
  }

  /** A batch whose table has its ids below the next one. */
  ghost predicate Keyed(b: Batch) {
    forall k :: k in b.articles ==> b.articles[k].id == k && k < b.nextId
  }

  /** Running the loop over `xs` and then over `ys` is running it over `xs + ys`. */
  lemma {:induction false} IngestAppend(b: Batch, xs: seq<Entry>, ys: seq<Entry>, feedId: int, now: int, hash: Hasher)
    ensures Ingest(b, xs + ys, feedId, now, hash) == Ingest(Ingest(b, xs, feedId, now, hash), ys, feedId, now, hash)
    decreases |ys|
  {
    if ys == [] {
      assert xs + ys == xs;
    } else {
      var zs := xs + ys;
      assert zs[..|zs| - 1] == xs + ys[..|ys| - 1];
      assert zs[|zs| - 1] == ys[|ys| - 1];
      IngestAppend(b, xs, ys[..|ys| - 1], feedId, now, hash);
    }
  }

  lemma {:induction false} ObservedAppend(xs: seq<Entry>, ys: seq<Entry>, hash: Hasher)
    ensures Observed(xs + ys, hash) == Observed(xs, hash) + Observed(ys, hash)
    decreases |ys|
  {
    if ys == [] {
      assert xs + ys == xs;
    } else {
      var zs := xs + ys;
      assert zs[..|zs| - 1] == xs + ys[..|ys| - 1];
      assert zs[|zs| - 1] == ys[|ys| - 1];
      ObservedAppend(xs, ys[..|ys| - 1], hash);
    }
  }

  /** The loop only adds: stored rows keep their values, the counter counts the new ids,
      and every new row belongs to the feed, is unread and carries a hash no earlier row had. */
  lemma {:induction false} IngestAdds(b: Batch, es: seq<Entry>, feedId: int, now: int, hash: Hasher)
    requires Keyed(b)
    ensures var r := Ingest(b, es, feedId, now, hash);
      && Keyed(r)
      && b.nextId <= r.nextId && r.nextId - b.nextId == r.added - b.added <= |es|
      && (forall k :: k in b.articles ==> k in r.articles && r.articles[k] == b.articles[k])
      && (forall k :: k in r.articles && k !in b.articles ==>
            && b.nextId <= k
            && r.articles[k].feedId == feedId && r.articles[k].unread && !r.articles[k].starred
            && r.articles[k].guidHash == hash(r.articles[k].guid)
            && !HashInStore(b.articles, r.articles[k].guidHash))
    decreases |es|
  {
    if es != [] {
      IngestAdds(b, es[..|es| - 1], feedId, now, hash);
    }
  }

  /** The loop observes the hash of every entry that normalises, in order, and each of
      those hashes is stored once the loop is done. */
  lemma {:induction false} IngestObserves(b: Batch, es: seq<Entry>, feedId: int, now: int, hash: Hasher)
    requires Keyed(b)
    ensures var r := Ingest(b, es, feedId, now, hash);
      && r.observed == b.observed + Observed(es, hash)
      && (forall h :: h in Observed(es, hash) ==> HashInStore(r.articles, h))
    decreases |es|
  {
    if es != [] {
      var init := es[..|es| - 1];
      var e := es[|es| - 1];
      IngestObserves(b, init, feedId, now, hash);
      IngestAdds(b, init, feedId, now, hash);
      var m := Ingest(b, init, feedId, now, hash);
      var r := IngestEntry(m, e, feedId, now, hash);
      assert r == Ingest(b, es, feedId, now, hash);
      match CreateArticle(e, feedId, now, hash)
      case Err(_) =>
      case Ok(a) =>
        assert GuidHash(e, hash) == Some(a.guidHash);
        assert forall k :: k in m.articles ==> k in r.articles && r.articles[k] == m.articles[k];
        forall h | h in Observed(es, hash) ensures HashInStore(r.articles, h) {
          if h in Observed(init, hash) {
            HashStays(m.articles, r.articles, h);
          } else if HashInStore(m.articles, a.guidHash) {
            HashStays(m.articles, r.articles, h);
          } else {
            assert r.articles[m.nextId].guidHash == a.guidHash;
          }
        }
    }
  }

  lemma HashStays(before: map<int, Article>, after: map<int, Article>, h: string)
    requires forall k :: k in before ==> k in after && after[k] == before[k]
    requires HashInStore(before, h)
    ensures HashInStore(after, h)
  {
    var k :| k in before && before[k].guidHash == h;
    assert k in after && after[k].guidHash == h;
  }

  /** The dedup check keeps hashes unique: a consistent table stays consistent. */
  lemma {:induction false} IngestKeepsValid(b: Batch, es: seq<Entry>, feedId: int, now: int, hash: Hasher)
    requires ArticlesValid(b.articles, b.nextId, hash)
    ensures ArticlesValid(Ingest(b, es, feedId, now, hash).articles, Ingest(b, es, feedId, now, hash).nextId, hash)
    decreases |es|
  {
    if es != [] {
      var init := es[..|es| - 1];
      var e := es[|es| - 1];
      IngestKeepsValid(b, init, feedId, now, hash);
      var m := Ingest(b, init, feedId, now, hash);
      match CreateArticle(e, feedId, now, hash)
      case Err(_) =>
      case Ok(a) =>
        if !HashInStore(m.articles, a.guidHash) {
          var r, id := IngestEntry(m, e, feedId, now, hash), m.nextId;
          assert id !in m.articles;
          forall j, k | j in r.articles && k in r.articles && r.articles[j].guidHash == r.articles[k].guidHash
            ensures j == k
          {
            if j != k && (j == id || k == id) {
              assert false;
            }
          }
        }
    }
  }

  /** When every observed hash is already stored, the loop inserts nothing. */
  lemma {:induction false} KnownEntriesInsertNothing(b: Batch, es: seq<Entry>, feedId: int, now: int, hash: Hasher)
    requires forall h :: h in Observed(es, hash) ==> HashInStore(b.articles, h)
    ensures Ingest(b, es, feedId, now, hash).articles == b.articles
    ensures Ingest(b, es, feedId, now, hash).nextId == b.nextId
    ensures Ingest(b, es, feedId, now, hash).added == b.added
    decreases |es|
  {
    if es != [] {
      var init := es[..|es| - 1];
      var e := es[|es| - 1];
      ObservedAppend(init, [e], hash);
      assert es == init + [e];
      assert Observed([e], hash) == (if GuidHash(e, hash).Some? then [GuidHash(e, hash).value] else []) by {
        assert [e][..0] == [];
      }
      KnownEntriesInsertNothing(b, init, feedId, now, hash);
      match CreateArticle(e, feedId, now, hash)
      case Err(_) =>
      case Ok(a) =>
        assert a.guidHash in Observed(es, hash);
    }
  }

  /** A failing entry is skipped: the loop ends as if the entry were not there. */
  lemma SkipsFailingEntry(b: Batch, es: seq<Entry>, i: int, feedId: int, now: int, hash: Hasher)
    requires 0 <= i < |es| && Failure(es[i]).Some?
    ensures Ingest(b, es[..i] + es[i + 1..], feedId, now, hash) == Ingest(b, es, feedId, now, hash)
  {
    assert es == es[..i] + [es[i]] + es[i + 1..];
    IngestAppend(b, es[..i] + [es[i]], es[i + 1..], feedId, now, hash);
    IngestAppend(b, es[..i], [es[i]], feedId, now, hash);
    IngestAppend(b, es[..i], es[i + 1..], feedId, now, hash);
    assert [es[i]][..0] == [];
  }

  /** Two entries with the same guid in one batch insert one row. */
  lemma DuplicateInsertsOnce(b: Batch, e: Entry, feedId: int, now: int, hash: Hasher)
    requires Keyed(b) && Failure(e).None? && !HashInStore(b.articles, GuidHash(e, hash).value)
    ensures Ingest(b, [e, e], feedId, now, hash).added == b.added + 1
    ensures Ingest(b, [e, e], feedId, now, hash).observed == b.observed + [GuidHash(e, hash).value, GuidHash(e, hash).value]
  {
    assert [e, e][..1] == [e];
    assert [e][..0] == [];
    var a := CreateArticle(e, feedId, now, hash).value;
    var m := Ingest(b, [e], feedId, now, hash);
    assert Ingest(b, [e][..0], feedId, now, hash) == b;
    assert m == IngestEntry(b, e, feedId, now, hash);
    assert m.articles[b.nextId].guidHash == a.guidHash;
    assert Ingest(b, [e, e], feedId, now, hash) == IngestEntry(m, e, feedId, now, hash);
  }
}
