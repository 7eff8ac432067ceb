/**
 * The two tables of the store, `urls` and `video_info`, as sequences of
 * rows in rowid order, the constraints their schema declares, and the link
 * `add_urls` keeps between them: each info row carries its parent's url.
 */
module Tables {

  /** A row of `urls`: `id INTEGER PRIMARY KEY AUTOINCREMENT, url TEXT UNIQUE NOT NULL`. */
  datatype UrlRow = UrlRow(id: nat, url: string)

  /**
   * A row of `video_info`; `urlId` is the foreign key into `urls(id)`,
   * declared `ON DELETE CASCADE`.
   */
  datatype InfoRow = InfoRow(id: nat, url: string, title: string, thumbnailUrl: string, duration: int, urlId: nat)

  /** Keys strictly increase along the table, as AUTOINCREMENT rowids do. */
  ghost predicate Increasing<T>(rows: seq<T>, key: T -> int) {
    forall i, j :: 0 <= i < j < |rows| ==> key(rows[i]) < key(rows[j])
  }

  /** No two rows share a key: a UNIQUE column. */
  ghost predicate Distinct<T, K>(rows: seq<T>, key: T -> K) {
    forall i, j :: 0 <= i < j < |rows| ==> key(rows[i]) != key(rows[j])
  }

  /** The rows that satisfy keep, in their original order: a `DELETE ... WHERE not keep`. */
  function Filter<T(!new)>(rows: seq<T>, keep: T -> bool): (r: seq<T>)
    ensures |r| <= |rows|
    ensures forall x :: x in r <==> x in rows && keep(x)
  {
    if rows == [] then []
    else
      var n := |rows| - 1;
      Filter(rows[..n], keep) + (if keep(rows[n]) then [rows[n]] else [])
  }

  /** Appending a row whose key exceeds every key keeps the keys increasing. */
  lemma AppendIncreasing<T>(rows: seq<T>, x: T, key: T -> int)
    requires Increasing(rows, key)
    requires forall y :: y in rows ==> key(y) < key(x)
    ensures Increasing(rows + [x], key)
  {
    var r := rows + [x];
    forall i, j | 0 <= i < j < |r| ensures key(r[i]) < key(r[j]) {
      assert r[i] == rows[i];
      if j == |rows| {
        assert r[i] in rows;
      } else {
        assert r[j] == rows[j];
      }
    }
  }

  /** Appending a row whose key no row has keeps the keys distinct. */
  lemma AppendDistinct<T, K>(rows: seq<T>, x: T, key: T -> K)
    requires Distinct(rows, key)
    requires forall y :: y in rows ==> key(y) != key(x)
    ensures Distinct(rows + [x], key)
  {
    var r := rows + [x];
    forall i, j | 0 <= i < j < |r| ensures key(r[i]) != key(r[j]) {
      assert r[i] == rows[i];
      if j == |rows| {
        assert r[i] in rows;
      } else {
        assert r[j] == rows[j];
      }
    }
  }

  /** Deleting rows keeps the remaining keys increasing. */
  lemma {:induction false} FilterIncreasing<T(!new)>(rows: seq<T>, keep: T -> bool, key: T -> int)
    requires Increasing(rows, key)
    ensures Increasing(Filter(rows, keep), key)
  {
    if rows != [] {
      var n := |rows| - 1;
      var prefix := rows[..n];
      assert Increasing(prefix, key);
      FilterIncreasing(prefix, keep, key);
      if keep(rows[n]) {
        forall y | y in Filter(prefix, keep) ensures key(y) < key(rows[n]) {
          var i :| 0 <= i < n && prefix[i] == y;
          assert rows[i] == y;
        }
        AppendIncreasing(Filter(prefix, keep), rows[n], key);
      }
    }
  }

  /** Deleting rows keeps the remaining keys distinct. */
  lemma {:induction false} FilterDistinct<T(!new), K>(rows: seq<T>, keep: T -> bool, key: T -> K)
    requires Distinct(rows, key)
    ensures Distinct(Filter(rows, keep), key)
  {
    if rows != [] {
      var n := |rows| - 1;
      var prefix := rows[..n];
      assert Distinct(prefix, key);
      FilterDistinct(prefix, keep, key);
      if keep(rows[n]) {
        forall y | y in Filter(prefix, keep) ensures key(y) != key(rows[n]) {
          var i :| 0 <= i < n && prefix[i] == y;
          assert rows[i] == y;
        }
        AppendDistinct(Filter(prefix, keep), rows[n], key);
      }
    }
  }

  function UrlId(u: UrlRow): int { u.id }
  function UrlText(u: UrlRow): string { u.url }
  function InfoId(v: InfoRow): int { v.id }
  function InfoUrl(v: InfoRow): string { v.url }

  /** The `url` column of `urls`, as `SELECT url FROM urls` lists it. */
  function UrlColumn(rows: seq<UrlRow>): (r: seq<string>)
    ensures |r| == |rows| && forall k :: 0 <= k < |rows| ==> r[k] == rows[k].url
  {
    seq(|rows|, k requires 0 <= k < |rows| => rows[k].url)
  }

  /**
   * Some `urls` row is the parent of v: its id is v's `url_id` (the foreign
   * key), and its url is v's url. The schema does not require the second
   * part; it holds because `add_urls` writes the same base URL into both rows.
   */
  ghost predicate HasParent(urls: seq<UrlRow>, v: InfoRow) {
    exists u :: u in urls && u.id == v.urlId && u.url == v.url
  }

  /** Some `urls` row holds url. */
  function Registered(urls: seq<UrlRow>, url: string): (b: bool)
    ensures b <==> exists k :: 0 <= k < |urls| && urls[k].url == url
  {
    exists u :: u in urls && u.url == url
  }

  /** Deleting where nothing matches deletes nothing. */
  lemma {:induction false} FilterKeepsAll<T(!new)>(rows: seq<T>, keep: T -> bool)
    requires forall x :: x in rows ==> keep(x)
    ensures Filter(rows, keep) == rows
  {
    if rows != [] {
      var n := |rows| - 1;
      var prefix := rows[..n];
      assert rows == prefix + [rows[n]];
      assert forall k :: 0 <= k < n ==> prefix[k] == rows[k];
      FilterKeepsAll(prefix, keep);
      assert keep(rows[n]);
    }
  }

  /**
   * With distinct url ids and distinct info urls, and every info row tied to
   * its parent by id and url, no two info rows share a parent. The foreign key
   * alone does not give this; the url link `add_urls` keeps does.
   */
  lemma AtMostOneInfoPerUrl(urls: seq<UrlRow>, info: seq<InfoRow>, i: nat, j: nat)
    requires Distinct(urls, UrlId) && Distinct(info, InfoUrl)
    requires forall v :: v in info ==> HasParent(urls, v)
    requires i < j < |info|
    ensures info[i].urlId != info[j].urlId
  {
    assert HasParent(urls, info[i]) && HasParent(urls, info[j]);
  }

  /** An info row carries the url of its parent, so no info row names an unregistered url. */
  lemma NoInfoForUnregistered(urls: seq<UrlRow>, info: seq<InfoRow>, url: string)
    requires forall v :: v in info ==> HasParent(urls, v)
    requires !Registered(urls, url)
    ensures forall v :: v in info ==> v.url != url
  {
    forall v | v in info ensures v.url != url {
      assert HasParent(urls, v);
    }
  }

  /** The rows `DELETE FROM urls WHERE id = ?` keeps. */
  function KeepUrl(id: nat): UrlRow -> bool {
    (u: UrlRow) => u.id != id
  }

  /** The rows the ON DELETE CASCADE of that delete keeps in `video_info`. */
  function KeepInfo(id: nat): InfoRow -> bool {
    (v: InfoRow) => v.urlId != id
  }

  /** After a delete and its cascade, every remaining info row still has its parent. */
  lemma CascadeKeepsParents(urls: seq<UrlRow>, info: seq<InfoRow>, id: nat)
    requires forall v :: v in info ==> HasParent(urls, v)
    ensures forall v :: v in Filter(info, KeepInfo(id)) ==> HasParent(Filter(urls, KeepUrl(id)), v)
  {
    forall v | v in Filter(info, KeepInfo(id)) ensures HasParent(Filter(urls, KeepUrl(id)), v) {
      assert HasParent(urls, v);
      var u :| u in urls && u.id == v.urlId && u.url == v.url;
      assert u in Filter(urls, KeepUrl(id));
    }
  }

  /** Deleting an id that no `urls` row holds removes nothing from either table. */
  lemma DeleteOfAbsentIdKeepsAll(urls: seq<UrlRow>, info: seq<InfoRow>, id: nat)
    requires forall v :: v in info ==> HasParent(urls, v)
    requires forall u :: u in urls ==> u.id != id
    ensures Filter(urls, KeepUrl(id)) == urls && Filter(info, KeepInfo(id)) == info
  {
    FilterKeepsAll(urls, KeepUrl(id));
    forall v | v in info ensures KeepInfo(id)(v) {
      assert HasParent(urls, v);
    }
    FilterKeepsAll(info, KeepInfo(id));
  }

  /**
   * The invariant the handlers keep: the schema's constraints (increasing
   * AUTOINCREMENT ids bounded by their counters, UNIQUE urls in both tables),
   * plus the link `add_urls` keeps: each info row carries its parent's url.
   */
  ghost predicate StoreInvariant(urls: seq<UrlRow>, info: seq<InfoRow>, urlSeq: nat, infoSeq: nat) {
    && Increasing(urls, UrlId) && Distinct(urls, UrlText)
    && (forall u :: u in urls ==> 0 < u.id <= urlSeq)
    && Increasing(info, InfoId) && Distinct(info, InfoUrl)
    && (forall v :: v in info ==> 0 < v.id <= infoSeq)
    && (forall v :: v in info ==> HasParent(urls, v))
  }

  /** A delete from `urls` with its cascade into `video_info` keeps the store's invariant. */
  lemma DeleteKeepsInvariant(urls: seq<UrlRow>, info: seq<InfoRow>, urlSeq: nat, infoSeq: nat, id: nat)
    requires StoreInvariant(urls, info, urlSeq, infoSeq)
    ensures StoreInvariant(Filter(urls, KeepUrl(id)), Filter(info, KeepInfo(id)), urlSeq, infoSeq)
  {
    FilterIncreasing(urls, KeepUrl(id), UrlId);
    FilterDistinct(urls, KeepUrl(id), UrlText);
    FilterIncreasing(info, KeepInfo(id), InfoId);
    FilterDistinct(info, KeepInfo(id), InfoUrl);
    CascadeKeepsParents(urls, info, id);
  }
}
