/**
 Listing a project's rows page by page (internal/kernel/page/page.go, the pageIn query of
 internal/platform/instance/repository.go, the list handler, and walkPages of
 internal/cli/client.go).

 The cursor text is modelled before base64, which is an invertible wrapping.
 */
module Pages {
  import opened Basics

  const SEPARATOR: char := '\0'

  // ----- the order of stored text -----

  /** `a` sorts strictly before `b`, character by character. */
  predicate TextBefore(a: string, b: string) {
    if b == [] then false
    else if a == [] then true
    else if a[0] == b[0] then TextBefore(a[1..], b[1..])
    else a[0] < b[0]
  }

  lemma {:induction false} TextIsOrdered(a: string, b: string)
    ensures a == b || TextBefore(a, b) || TextBefore(b, a)
    ensures !(TextBefore(a, b) && TextBefore(b, a)) && (a == b ==> !TextBefore(a, b))
  {
    if a != [] && b != [] && a[0] == b[0] {
      TextIsOrdered(a[1..], b[1..]);
      assert a == [a[0]] + a[1..] && b == [b[0]] + b[1..];
    }
  }

  lemma {:induction false} TextIsTransitive(a: string, b: string, c: string)
    requires TextBefore(a, b) && TextBefore(b, c)
    ensures TextBefore(a, c)
  {
    if a != [] && a[0] == b[0] == c[0] {
      TextIsTransitive(a[1..], b[1..], c[1..]);
    }
  }

  // ----- rows, cursors and pages -----

  datatype Row = Row(project: string, order: string, id: string)

  datatype Cursor = Cursor(order: string, id: string)

  function KeyOf(r: Row): Cursor {
    Cursor(r.order, r.id)
  }

  predicate KeyBefore(a: Cursor, b: Cursor) {
    TextBefore(a.order, b.order) || (a.order == b.order && TextBefore(a.id, b.id))
  }

  lemma KeysAreOrdered(a: Cursor, b: Cursor)
    ensures a == b || KeyBefore(a, b) || KeyBefore(b, a)
    ensures !(KeyBefore(a, b) && KeyBefore(b, a)) && !KeyBefore(a, a)
  {
    TextIsOrdered(a.order, b.order);
    TextIsOrdered(a.id, b.id);
    TextIsOrdered(a.order, a.order);
    TextIsOrdered(a.id, a.id);
  }

  lemma KeysAreTransitive(a: Cursor, b: Cursor, c: Cursor)
    requires KeyBefore(a, b) && KeyBefore(b, c)
    ensures KeyBefore(a, c)
  {
    if TextBefore(a.order, b.order) && TextBefore(b.order, c.order) {
      TextIsTransitive(a.order, b.order, c.order);
    } else if a.order == b.order == c.order {
      TextIsTransitive(a.id, b.id, c.id);
    }
  }

  const START := Cursor("", "")

  predicate Beyond(r: Row, after: Cursor) {
    after.order == "" || KeyBefore(after, KeyOf(r))
  }

  predicate Selected(r: Row, project: string, after: Cursor) {
    r.project == project && Beyond(r, after)
  }

  /** Ids are unique, and every row carries a creation stamp with no zero byte in it. */
  ghost predicate ValidTable(t: set<Row>) {
    && (forall r, q | r in t && q in t && r.id == q.id :: r == q)
    && (forall r | r in t :: r.order != "" && SEPARATOR !in r.order)
  }

  ghost predicate Sorted(rows: seq<Row>) {
    forall i, j | 0 <= i < j < |rows| :: KeyBefore(KeyOf(rows[i]), KeyOf(rows[j]))
  }

  /** What the query promises: the first `limit` selected rows, in order. */
  ghost predicate IsPage(page: seq<Row>, t: set<Row>, project: string, after: Cursor, limit: nat) {
    && |page| <= limit
    && Sorted(page)
    && (forall r | r in page :: r in t && Selected(r, project, after))
    && (forall r | r in t && Selected(r, project, after) && r !in page ::
          |page| == limit && forall q | q in page :: KeyBefore(KeyOf(q), KeyOf(r)))
  }

  method FirstOf(rows: set<Row>) returns (first: Row)
    requires rows != {} && ValidTable(rows)
    ensures first in rows && forall r | r in rows && r != first :: KeyBefore(KeyOf(first), KeyOf(r))
  {
    first :| first in rows;
    var rest := rows - {first};
    while rest != {}
      invariant first in rows && first !in rest && rest <= rows
      invariant forall r | r in rows && r !in rest && r != first :: KeyBefore(KeyOf(first), KeyOf(r))
    {
      var r :| r in rest;
      rest := rest - {r};
      KeysAreOrdered(KeyOf(first), KeyOf(r));
      if KeyBefore(KeyOf(r), KeyOf(first)) {
        forall q | q in rows && q !in rest && q != first && q != r ensures KeyBefore(KeyOf(r), KeyOf(q)) {
          KeysAreTransitive(KeyOf(r), KeyOf(first), KeyOf(q));
        }
        first := r;
      }
    }
  }

  method PageIn(t: set<Row>, project: string, after: Cursor, limit: nat) returns (page: seq<Row>)
    requires ValidTable(t)
    ensures IsPage(page, t, project, after, limit)
  {
    page := [];
    var left := set r | r in t && Selected(r, project, after);
    while left != {} && |page| < limit
      invariant |page| <= limit && Sorted(page) && left <= t
      invariant forall r :: r in t && Selected(r, project, after) <==> r in left || r in page
      invariant forall r, q | r in left && q in page :: KeyBefore(KeyOf(q), KeyOf(r))
    {
      var r := FirstOf(left);
      left := left - {r};
      page := page + [r];
    }
  }

  // ----- cursor text and window -----

  function Encode(c: Cursor): string {
    if c.order == "" && c.id == "" then "" else c.order + [SEPARATOR] + c.id
  }

  function Cut(text: string): Option<Cursor> {
    if text == "" then None
    else if text[0] == SEPARATOR then Some(Cursor("", text[1..]))
    else
      match Cut(text[1..])
      case None => None
      case Some(c) => Some(c.(order := [text[0]] + c.order))
  }

  lemma {:induction false} CutAtFirst(order: string, rest: string)
    requires SEPARATOR !in order
    ensures Cut(order + [SEPARATOR] + rest) == Some(Cursor(order, rest))
  {
    var text := order + [SEPARATOR] + rest;
    if order != "" {
      assert text[1..] == order[1..] + [SEPARATOR] + rest;
      CutAtFirst(order[1..], rest);
      assert order == [order[0]] + order[1..];
    } else {
      assert text[1..] == rest;
    }
  }

  /** A handed-out cursor reads back as itself exactly when its stamp has no zero byte. */
  lemma CursorRoundTripIff(c: Cursor)
    requires c != START
    ensures Cut(Encode(c)) == Some(c) <==> SEPARATOR !in c.order
  {
    if SEPARATOR !in c.order {
      CutAtFirst(c.order, c.id);
    } else {
      CutHasNoSeparator(Encode(c));
    }
  }

  lemma {:induction false} CutHasNoSeparator(text: string)
    ensures Cut(text).Some? ==> SEPARATOR !in Cut(text).value.order
  {
    if text != "" && text[0] != SEPARATOR {
      CutHasNoSeparator(text[1..]);
    }
  }

  lemma {:induction false} CutRejoins(text: string)
    ensures Cut(text).Some? ==> text == Cut(text).value.order + [SEPARATOR] + Cut(text).value.id
    ensures Cut(text).None? ==> SEPARATOR !in text
  {
    if text != "" {
      assert text == [text[0]] + text[1..];
      if text[0] != SEPARATOR {
        CutRejoins(text[1..]);
      }
    }
  }

  /** Cursor text, whoever made it, is read as exactly what stands before and after its first separator. */
  lemma CutsIff(text: string, c: Cursor)
    ensures Cut(text) == Some(c) <==> SEPARATOR !in c.order && text == c.order + [SEPARATOR] + c.id
    ensures Cut(text).None? <==> SEPARATOR !in text
  {
    CutRejoins(text);
    CutHasNoSeparator(text);
    if SEPARATOR !in c.order {
      CutAtFirst(c.order, c.id);
    }
  }

  /** `From`: an absent limit is the fallback, a limit must be positive, and it is capped. */
  function WindowLimit(asked: Option<int>, fallback: nat, ceiling: nat): (r: Option<nat>)
    requires 1 <= fallback && 1 <= ceiling
    ensures r.Some? ==> 1 <= r.value <= ceiling
    ensures r.None? <==> asked.Some? && asked.value <= 0
    ensures asked.Some? && 0 < asked.value <= ceiling ==> r == Some(asked.value)
    ensures asked.Some? && asked.value > ceiling ==> r == Some(ceiling)
    ensures asked.None? && fallback <= ceiling ==> r == Some(fallback)
  {
    if asked.Some? && asked.value <= 0 then None
    else Some(Min(if asked.Some? then asked.value else fallback, ceiling))
  }

  // ----- walking -----

  function After(page: seq<Row>): Cursor
    requires page != []
  {
    KeyOf(page[|page| - 1])
  }

  /** The rows of the first `k` pages. */
  function Listed(pages: seq<seq<Row>>, k: nat): seq<Row>
    requires k <= |pages|
  {
    if k == 0 then [] else Listed(pages, k - 1) + pages[k - 1]
  }

  /** The cursor the `i`-th page was asked for. */
  function CursorAt(pages: seq<seq<Row>>, i: nat): Cursor
    requires i <= |pages|
  {
    if i == 0 || pages[i - 1] == [] then START else After(pages[i - 1])
  }

  /** Pages read one after another, each from the table as it was at that moment. */
  ghost predicate Walk(tables: seq<set<Row>>, pages: seq<seq<Row>>, project: string, limit: nat) {
    && |tables| == |pages| && limit >= 1
    && (forall i | 0 <= i < |pages| :: ValidTable(tables[i]) && PageAt(tables, pages, project, limit, i))
    && (forall i | 0 <= i < |pages| - 1 :: |pages[i]| == limit)
  }

  ghost predicate PageAt(tables: seq<set<Row>>, pages: seq<seq<Row>>, project: string, limit: nat, i: nat)
    requires i < |pages| == |tables|
  {
    IsPage(pages[i], tables[i], project, CursorAt(pages, i), limit)
  }

  ghost predicate Ended(pages: seq<seq<Row>>, limit: nat) {
    pages != [] && |pages[|pages| - 1]| < limit
  }

  lemma PageFollows(sofar: seq<Row>, page: seq<Row>, t: set<Row>, project: string, after: Cursor, limit: nat)
    requires Sorted(sofar) && ValidTable(t) && IsPage(page, t, project, after, limit)
    requires if sofar == [] then after == START else after == After(sofar) && after.order != ""
    ensures Sorted(sofar + page)
  {
    forall i, j | 0 <= i < |sofar| && 0 <= j < |page| ensures KeyBefore(KeyOf(sofar[i]), KeyOf(page[j])) {
      assert page[j] in page;
      if i < |sofar| - 1 {
        KeysAreTransitive(KeyOf(sofar[i]), after, KeyOf(page[j]));
      }
    }
  }

  /** Whatever happens to the table between pages, the rows listed so far are in order. */
  lemma {:induction false} WalkIsSorted(tables: seq<set<Row>>, pages: seq<seq<Row>>, project: string, limit: nat,
                                        k: nat)
    requires Walk(tables, pages, project, limit) && k <= |pages|
    ensures Sorted(Listed(pages, k))
    ensures 0 < k < |pages| ==>
      Listed(pages, k) != [] && After(Listed(pages, k)) == CursorAt(pages, k) && CursorAt(pages, k).order != ""
  {
    if k > 0 {
      WalkIsSorted(tables, pages, project, limit, k - 1);
      assert PageAt(tables, pages, project, limit, k - 1);
      PageFollows(Listed(pages, k - 1), pages[k - 1], tables[k - 1], project, CursorAt(pages, k - 1), limit);
      if k < |pages| {
        assert |pages[k - 1]| == limit && pages[k - 1][limit - 1] in pages[k - 1];
      }
    }
  }

  /** A row there throughout is listed already, or lies beyond the cursor reached. */
  lemma {:induction false} NothingSkipped(tables: seq<set<Row>>, pages: seq<seq<Row>>, project: string, limit: nat,
                                          r: Row, k: nat)
    requires Walk(tables, pages, project, limit) && k <= |pages|
    requires r.project == project && forall i | 0 <= i < |tables| :: r in tables[i]
    ensures r in Listed(pages, k) || (Beyond(r, CursorAt(pages, k)) && (k > 0 ==> |pages[k - 1]| == limit))
  {
    if k > 0 {
      NothingSkipped(tables, pages, project, limit, r, k - 1);
      assert PageAt(tables, pages, project, limit, k - 1);
      if r !in Listed(pages, k) {
        assert r !in pages[k - 1] && r in tables[k - 1];
        assert |pages[k - 1]| == limit && pages[k - 1][limit - 1] in pages[k - 1];
      }
    }
  }

  lemma {:induction false} ListedOnSomePage(pages: seq<seq<Row>>, r: Row, k: nat) returns (i: nat)
    requires k <= |pages| && r in Listed(pages, k)
    ensures i < k && r in pages[i]
  {
    if r in pages[k - 1] {
      i := k - 1;
    } else {
      i := ListedOnSomePage(pages, r, k - 1);
    }
  }

  /**
   However the table changes between pages, a finished walk lists every row that was there
   throughout, no row twice, and only rows of the project that were in the table when their page
   was read.
   */
  lemma WalkIsExact(tables: seq<set<Row>>, pages: seq<seq<Row>>, project: string, limit: nat)
    requires Walk(tables, pages, project, limit) && Ended(pages, limit)
    ensures
      var all := Listed(pages, |pages|);
      && Sorted(all)
      && (forall i, j | 0 <= i < j < |all| :: all[i] != all[j])
      && (forall r: Row | r.project == project && (forall i | 0 <= i < |tables| :: r in tables[i]) :: r in all)
      && (forall r | r in all :: r.project == project && exists i ::
        0 <= i < |pages| && r in pages[i] && r in tables[i])
  {
    forall r | r in Listed(pages, |pages|)
      ensures r.project == project && exists i :: 0 <= i < |pages| && r in pages[i] && r in tables[i]
    {
      var i := ListedOnSomePage(pages, r, |pages|);
      assert PageAt(tables, pages, project, limit, i);
    }
    WalkIsSorted(tables, pages, project, limit, |pages|);
    var all := Listed(pages, |pages|);
    forall i, j | 0 <= i < j < |all| ensures all[i] != all[j] {
      KeysAreOrdered(KeyOf(all[i]), KeyOf(all[j]));
    }
    forall r: Row | r.project == project && (forall i | 0 <= i < |tables| :: r in tables[i]) ensures r in all {
      NothingSkipped(tables, pages, project, limit, r, |pages|);
    }
  }

  /** Following cursors over a table nobody changes ends, with exactly the project's rows in order. */
  method WalkPages(t: set<Row>, project: string, limit: nat) returns (rows: seq<Row>)
    requires ValidTable(t) && limit >= 1
    ensures Sorted(rows)
    ensures forall r :: r in rows <==> r in t && r.project == project
  {
    rows := [];
    var after, more := START, true;
    ghost var ahead := Ahead(t, project, after);
    while more
      invariant Sorted(rows)
      invariant more ==> ahead == Ahead(t, project, after)
      invariant more ==> if rows == [] then after == START else after == After(rows) && after.order != ""
      invariant forall r | r in t && r.project == project :: r in rows || (more && r in ahead)
      invariant forall r | r in rows :: r in t && r.project == project
      decreases more, |ahead|
    {
      var page := PageIn(t, project, after, limit);
      PageFollows(rows, page, t, project, after, limit);
      rows := rows + page;
      more := |page| == limit;
      if more {
        StillAhead(t, project, after, page, limit);
        var last := page[|page| - 1];
        assert last in page;
        CursorRoundTripIff(KeyOf(last));
        after := Cut(Encode(KeyOf(last))).value;
        ahead := Ahead(t, project, after);
      }
    }
  }

  ghost function Ahead(t: set<Row>, project: string, after: Cursor): set<Row> {
    set r | r in t && Selected(r, project, after)
  }

  /** After a full page, what lies ahead is what was ahead and is not on the page. */
  lemma StillAhead(t: set<Row>, project: string, after: Cursor, page: seq<Row>, limit: nat)
    requires ValidTable(t) && IsPage(page, t, project, after, limit) && |page| == limit >= 1
    ensures |Ahead(t, project, After(page))| < |Ahead(t, project, after)|
    ensures forall r | r in Ahead(t, project, after) :: r in page || r in Ahead(t, project, After(page))
  {
    var last, next := page[|page| - 1], After(page);
    assert last in page;
    KeysAreOrdered(next, next);
    forall r | r in Ahead(t, project, next) ensures r in Ahead(t, project, after) {
      if after.order != "" {
        KeysAreTransitive(after, next, KeyOf(r));
      }
    }
    assert last in Ahead(t, project, after) && last !in Ahead(t, project, next);
    Fewer(Ahead(t, project, next), Ahead(t, project, after) - {last});
  }
}
