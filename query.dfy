/** The read path of the store: the WHERE clause `get_items` assembles from a
    `SearchFilter`, SQLite's LIKE operator it relies on for text search, and the
    `ORDER BY created_at DESC LIMIT ? OFFSET ?` window. */
module Search {

  import opened Wrappers
  import opened Ints
  import opened ItemTypes
  import opened Rows

  // ----- SQLite LIKE -----

  /** LIKE folds only ASCII letters. */
  function FoldAscii(c: char): (r: char)
    ensures 'A' <= c <= 'Z' ==> r as int == c as int + 32
    ensures !('A' <= c <= 'Z') ==> r == c
  {
    if 'A' <= c <= 'Z' then (c as int + 32) as char else c
  }

  predicate FoldEq(a: char, b: char)
  {
    FoldAscii(a) == FoldAscii(b)
  }

  predicate FoldMatch(a: string, b: string)
  {
    |a| == |b| && forall i :: 0 <= i < |a| ==> FoldEq(a[i], b[i])
  }

  predicate NoWildcards(q: string)
  {
    forall i :: 0 <= i < |q| ==> q[i] != '%' && q[i] != '_'
  }

  /** `t LIKE p` with no ESCAPE clause: `%` matches any run of characters, `_` any one
      character, and every other character itself up to ASCII case. */
  predicate Like(p: string, t: string)
    decreases |p| + |t|
  {
    if p == [] then t == []
    else if p[0] == '%' then Like(p[1..], t) || (t != [] && Like(p, t[1..]))
    else t != [] && (p[0] == '_' || FoldEq(p[0], t[0])) && Like(p[1..], t[1..])
  }

  /** The bound parameter `format!("%{}%", query)`; the user's own `%` and `_` stay wildcards. */
  function LikePattern(query: string): string
  {
    "%" + query + "%"
  }

  /** `q` occurs in `t` at position `i`, up to ASCII case. */
  predicate OccursAt(t: string, q: string, i: nat)
  {
    i + |q| <= |t| && FoldMatch(q, t[i..i + |q|])
  }

  /** Case-folded substring occurrence. */
  predicate ContainsFolded(t: string, q: string)
  {
    exists i: nat | i <= |t| :: OccursAt(t, q, i)
  }

  /** A leading `%` lets the rest of the pattern match any suffix. */
  lemma {:induction false} LikePercent(p: string, t: string)
    ensures Like("%" + p, t) <==> exists i :: 0 <= i <= |t| && Like(p, t[i..])
    decreases |t|
  {
    var pp := "%" + p;
    assert pp[0] == '%' && pp[1..] == p;
    if t == [] {
      assert t[0..] == t;
    } else {
      LikePercent(p, t[1..]);
      if Like(pp, t) {
        if Like(p, t) {
          assert t[0..] == t;
        } else {
          var i :| 0 <= i <= |t[1..]| && Like(p, t[1..][i..]);
          assert t[1..][i..] == t[i + 1..];
        }
      }
      if i :| 0 <= i <= |t| && Like(p, t[i..]) {
        if i == 0 {
          assert t[0..] == t;
        } else {
          assert t[1..][i - 1..] == t[i..];
        }
      }
    }
  }

  /** A wildcard-free prefix of the pattern must match a prefix of the text up to case. */
  lemma {:induction false} LikeLiteral(q: string, p: string, t: string)
    requires NoWildcards(q)
    ensures Like(q + p, t) <==> |q| <= |t| && FoldMatch(q, t[..|q|]) && Like(p, t[|q|..])
    decreases |q|
  {
    if q == [] {
      assert q + p == p && t[0..] == t;
    } else {
      var qp := q + p;
      assert qp[0] == q[0] && qp[1..] == q[1..] + p;
      if t != [] {
        LikeLiteral(q[1..], p, t[1..]);
        if |q| <= |t| {
          assert t[1..][..|q| - 1] == t[1..|q|];
          assert t[1..][|q| - 1..] == t[|q|..];
          assert FoldMatch(q, t[..|q|]) <==> FoldEq(q[0], t[0]) && FoldMatch(q[1..], t[1..|q|]) by {
            if FoldEq(q[0], t[0]) && FoldMatch(q[1..], t[1..|q|]) {
              forall i | 0 <= i < |q| ensures FoldEq(q[i], t[..|q|][i]) {
                if i > 0 { assert q[1..][i - 1] == q[i] && t[1..|q|][i - 1] == t[i]; }
              }
            }
            if FoldMatch(q, t[..|q|]) {
              assert FoldEq(q[0], t[..|q|][0]);
              forall i | 0 <= i < |q| - 1 ensures FoldEq(q[1..][i], t[1..|q|][i]) {
                assert FoldEq(q[i + 1], t[..|q|][i + 1]);
              }
            }
          }
        }
      }
    }
  }

  lemma LikeAnything(t: string)
    ensures Like("%", t)
  {
    LikePercent("", t);
    assert "%" + "" == "%";
    assert Like("", t[|t|..]);
  }

  /** After the leading `%`, the pattern `q%` matches the suffix from `i` exactly when `q`
      occurs at `i`. */
  lemma LikeSuffix(q: string, t: string, i: nat)
    requires NoWildcards(q) && i <= |t|
    ensures Like(q + "%", t[i..]) <==> OccursAt(t, q, i)
  {
    LikeLiteral(q, "%", t[i..]);
    if i + |q| <= |t| {
      assert t[i..][..|q|] == t[i..i + |q|];
      LikeAnything(t[i..][|q|..]);
    }
  }

  /** The search condition: for a query without wildcards, `content_text LIKE '%q%'` holds
      exactly when the query occurs in the text up to ASCII case. */
  lemma LikeContains(q: string, t: string)
    requires NoWildcards(q)
    ensures Like(LikePattern(q), t) <==> ContainsFolded(t, q)
  {
    var rest := q + "%";
    assert LikePattern(q) == "%" + rest;
    LikePercent(rest, t);
    if Like(LikePattern(q), t) {
      var i :| 0 <= i <= |t| && Like(rest, t[i..]);
      LikeSuffix(q, t, i);
    }
    if ContainsFolded(t, q) {
      var i: nat :| i <= |t| && OccursAt(t, q, i);
      LikeSuffix(q, t, i);
    }
  }

  // ----- the WHERE clause -----

  /** `content_text LIKE ?`, added only for a non-empty query; a NULL `content_text` never matches. */
  predicate QueryMatches(query: string, r: Row)
  {
    query == [] || (r.contentText.Some? && Like(LikePattern(query), r.contentText.value))
  }

  /** `content_type = ?`, added only when a type is given. */
  predicate TypeMatches(contentType: Option<ContentType>, r: Row)
  {
    contentType.None? || r.contentType == TypeTag(contentType.value)
  }

  /** `is_favorite = 1`, added only for favourites-only filters. */
  predicate FavoriteMatches(favoritesOnly: bool, r: Row)
  {
    !favoritesOnly || r.isFavorite
  }

  /** The conjunction of the active restrictions. The filter's `dateRange` is not consulted. */
  predicate Matches(f: SearchFilter, r: Row)
  {
    QueryMatches(f.query, r) && TypeMatches(f.contentType, r) && FavoriteMatches(f.favoritesOnly, r)
  }

  lemma {:induction false} KeepExtensional(rows: seq<Row>, p: Row -> bool, q: Row -> bool)
    requires forall x :: p(x) == q(x)
    ensures Keep(rows, p) == Keep(rows, q)
  {
    if rows != [] {
      KeepExtensional(rows[1..], p, q);
    }
  }

  function Select(rows: seq<Row>, f: SearchFilter): (r: seq<Row>)
    ensures forall x :: x in r <==> x in rows && Matches(f, x)
  {
    Keep(rows, (x: Row) => Matches(f, x))
  }

  /** The default filter selects every row. */
  lemma SelectDefault(rows: seq<Row>)
    ensures Select(rows, DefaultSearchFilter()) == rows
  {
    KeepAll(rows, (x: Row) => Matches(DefaultSearchFilter(), x));
  }

  /** Image rows, whose `content_text` is NULL, never satisfy a non-empty search. */
  lemma ImageRowsNeverMatchQuery(item: ClipboardItem, id: int, f: SearchFilter)
    requires item.content.ImagePayload? && f.query != []
    ensures !Matches(f, EncodeRow(item, id))
  {
  }

  /** A text row is found by a wildcard-free query exactly when its text contains the query
      up to ASCII case (and it meets the other restrictions). */
  lemma TextSearchFindsSubstrings(item: ClipboardItem, id: int, f: SearchFilter)
    requires item.content.TextPayload? && f.query != [] && NoWildcards(f.query)
    ensures Matches(f, EncodeRow(item, id)) <==>
              && ContainsFolded(item.content.text, f.query)
              && (f.contentType.None? || f.contentType == Some(Text))
              && FavoriteMatches(f.favoritesOnly, EncodeRow(item, id))
  {
    LikeContains(f.query, item.content.text);
  }

  // ----- ORDER BY created_at DESC LIMIT ? OFFSET ? -----

  /** Where the window starts: a negative OFFSET counts as zero. */
  function WindowStart(n: nat, offset: int): (start: nat)
    ensures start <= n
  {
    if offset <= 0 then 0 else Min(offset, n)
  }

  /** The LIMIT/OFFSET window over an ordered result; a negative LIMIT means no limit. */
  function Window(s: seq<Row>, limit: int, offset: int): (r: seq<Row>)
    ensures var start := WindowStart(|s|, offset);
      && start + |r| <= |s| && r == s[start..start + |r|]
      && (limit < 0 ==> |r| == |s| - start)
      && (limit >= 0 ==> |r| == Min(limit, |s| - start))
  {
    var tail := s[WindowStart(|s|, offset)..];
    if limit < 0 then tail else tail[..Min(limit, |tail|)]
  }

  /** A window of a newest-first sequence is newest-first and holds only its rows. */
  lemma WindowOfSorted(s: seq<Row>, limit: int, offset: int)
    requires NewestFirst(s)
    ensures NewestFirst(Window(s, limit, offset))
    ensures forall x :: x in Window(s, limit, offset) ==> x in s
  {
    var start := WindowStart(|s|, offset);
    var r := Window(s, limit, offset);
    forall x | x in r ensures x in s {
      var k :| 0 <= k < |r| && r[k] == x;
      assert s[start + k] == x;
    }
    forall i, j | 0 <= i < j < |r| ensures r[i].createdAt >= r[j].createdAt {
      assert r[i] == s[start + i] && r[j] == s[start + j];
    }
  }

  /** The rows `get_items(filter, limit, offset)` reads, in result order. */
  function Query(rows: seq<Row>, f: SearchFilter, limit: u64, offset: u64): (r: seq<Row>)
    ensures forall x :: x in r ==> x in rows && Matches(f, x)
    ensures NewestFirst(r)
    ensures limit < 0x8000_0000_0000_0000 ==> |r| <= limit
    ensures var n := |Select(rows, f)|;
      offset < 0x8000_0000_0000_0000 && limit < 0x8000_0000_0000_0000 ==>
        |r| == Min(limit, n - Min(offset, n))
  {
    var selected := Select(rows, f);
    var sorted := SortNewestFirst(selected);
    WindowOfSorted(sorted, AsI64(limit), AsI64(offset));
    assert forall x :: x in sorted ==> x in selected by {
      forall x | x in sorted ensures x in selected {
        assert x in multiset(sorted);
      }
    }
    Window(sorted, AsI64(limit), AsI64(offset))
  }

  /** The first page holds the newest matching rows: no matching row left out of it is newer
      than a row on it. */
  lemma FirstPageIsNewest(rows: seq<Row>, f: SearchFilter, limit: u64, x: Row, y: Row)
    requires x in Query(rows, f, limit, 0)
    requires y in rows && Matches(f, y) && y !in Query(rows, f, limit, 0)
    ensures x.createdAt >= y.createdAt
  {
    var selected := Select(rows, f);
    var sorted := SortNewestFirst(selected);
    var r := Query(rows, f, limit, 0);
    QueryFirstPage(rows, f, limit);
    assert y in selected;
    assert y in multiset(sorted);
    PrefixIsNewest(sorted, |r|, x, y);
  }

  /** Without an offset the result is a prefix of the ordered matches. */
  lemma QueryFirstPage(rows: seq<Row>, f: SearchFilter, limit: u64)
    ensures var r := Query(rows, f, limit, 0);
      |r| <= |Select(rows, f)| && r == SortNewestFirst(Select(rows, f))[..|r|]
  {
  }

  /** In a newest-first sequence, a row of a prefix is at least as new as a row after it. */
  lemma PrefixIsNewest(sorted: seq<Row>, m: nat, x: Row, y: Row)
    requires NewestFirst(sorted) && m <= |sorted|
    requires x in sorted[..m] && y in sorted && y !in sorted[..m]
    ensures x.createdAt >= y.createdAt
  {
    var a :| 0 <= a < m && sorted[..m][a] == x;
    var b :| 0 <= b < |sorted| && sorted[b] == y;
    assert sorted[a] == x;
  }

  /** The date range in a filter has no effect on the result. */
  lemma QueryIgnoresDateRange(rows: seq<Row>, f: SearchFilter, limit: u64, offset: u64)
    ensures Query(rows, f, limit, offset) == Query(rows, f.(dateRange := None), limit, offset)
  {
    var g := f.(dateRange := None);
    KeepExtensional(rows, (x: Row) => Matches(f, x), (x: Row) => Matches(g, x));
  }
}
