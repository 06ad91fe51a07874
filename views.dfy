/**
 * The reader side of the web dashboard, once the Drive download is taken
 * off: the category filters, pagination and the participation table. The
 * downloaded CSV is an input; None stands for every failure before the rows
 * are available (no Drive service, file not found, download error), each of
 * which the route catches and shows as an error message.
 */
module Views {
  import opened Wrappers
  import opened PyStr
  import opened Csv
  import opened Seqs

  /** `m.get("categoria", "").strip()`. */
  function Category(row: Row): string {
    Strip(Get(row, "categoria", ""))
  }

  // ---------------------------------------------------------------------
  // Category filters

  /** The condition of the comprehension: the stripped category is `wanted`. */
  function HasCategory(wanted: string): Row -> bool {
    row => Category(row) == wanted
  }

  /**
   * `[m for m in rows if m.get("categoria", "").strip() == wanted]`. Every
   * row kept has the wanted category; `Seqs.FilterIsSubsequence` and
   * `Seqs.FilterCounts` show that the rows kept are exactly those, in file
   * order, each as often as in the file.
   */
  function FilterCategory(rows: seq<Row>, wanted: string): (r: seq<Row>)
    ensures |r| <= |rows|
    ensures forall i :: 0 <= i < |r| ==> Category(r[i]) == wanted
  {
    FilterKeeps(rows, HasCategory(wanted));
    Filter(rows, HasCategory(wanted))
  }

  /** The comunicados page: the page shown, the page number, the page count and the whole filtered list. */
  datatype ComunicadosView = ComunicadosView(messages: seq<Row>, page: int, totalPages: int, all: seq<Row>, failed: bool)

  /**
   * The `comunicados` route. On failure the defaults set before the `try`
   * remain: no rows, page 1 of 1.
   */
  function Comunicados(file: Option<seq<Row>>, pageArg: int, perPage: nat): (v: ComunicadosView)
    requires perPage > 0
    ensures file.None? ==> v == ComunicadosView([], 1, 1, [], true)
    ensures file.Some? ==> !v.failed && v.all == FilterCategory(file.value, "comunicado")
    ensures file.Some? ==> v.page == pageArg && v.messages == PageOf(v.all, pageArg, perPage)
    ensures file.Some? ==> v.totalPages == TotalPages(|v.all|, perPage)
  {
    if file.None? then ComunicadosView([], 1, 1, [], true)
    else
      var only := FilterCategory(file.value, "comunicado");
      ComunicadosView(PageOf(only, pageArg, perPage), pageArg, TotalPages(|only|, perPage), only, false)
  }

  /** The `salseo` route: three filters of the same file; all empty on failure. */
  datatype SalseoView = SalseoView(datos: seq<Row>, cesiones: seq<Row>, cronicas: seq<Row>, failed: bool)

  function Salseo(file: Option<seq<Row>>): (v: SalseoView)
    ensures file.None? ==> v == SalseoView([], [], [], true)
    ensures file.Some? ==> (!v.failed
      && v.datos == FilterCategory(file.value, "dato")
      && v.cesiones == FilterCategory(file.value, "cesion")
      && v.cronicas == FilterCategory(file.value, "cronica"))
  {
    if file.None? then SalseoView([], [], [], true)
    else SalseoView(FilterCategory(file.value, "dato"), FilterCategory(file.value, "cesion"),
                    FilterCategory(file.value, "cronica"), false)
  }

  /** Two different labels select disjoint sets of rows. */
  lemma FiltersDisjoint(rows: seq<Row>, a: string, b: string, x: Row)
    requires a != b
    ensures multiset(FilterCategory(rows, a))[x] == 0 || multiset(FilterCategory(rows, b))[x] == 0
  {
    FilterCounts(rows, HasCategory(a), x);
    FilterCounts(rows, HasCategory(b), x);
  }

  // ---------------------------------------------------------------------
  // Pagination

  /** A slice bound normalised as Python does: negative counts from the end, then clamped. */
  function PyIndex(i: int, len: nat): (r: nat)
    ensures r <= len
    ensures 0 <= i <= len ==> r == i
    ensures i > len ==> r == len
    ensures i < 0 ==> r == if len + i < 0 then 0 else len + i
  {
    if i < 0 then (if len + i < 0 then 0 else len + i)
    else if i > len then len
    else i
  }

  /** `s[lo:hi]`. */
  function PySlice<T>(s: seq<T>, lo: int, hi: int): seq<T> {
    var a, b := PyIndex(lo, |s|), PyIndex(hi, |s|);
    if a < b then s[a..b] else []
  }

  /** `s[(page - 1) * N : (page - 1) * N + N]`. */
  function PageOf<T>(s: seq<T>, page: int, perPage: nat): seq<T>
    requires perPage > 0
  {
    var start := (page - 1) * perPage;
    PySlice(s, start, start + perPage)
  }

  /** `(len + N - 1) // N`. */
  function TotalPages(len: nat, perPage: nat): nat
    requires perPage > 0
  {
    (len + perPage - 1) / perPage
  }

  function Min(a: int, b: int): int { if a <= b then a else b }

  /**
   * For page >= 1 the page is the run of at most N rows starting at
   * (page - 1) * N, cut short at the end of the list.
   */
  lemma PageIsWindow<T>(s: seq<T>, page: int, perPage: nat)
    requires perPage > 0 && page >= 1
    ensures var start := (page - 1) * perPage;
            start >= 0 && PageOf(s, page, perPage) == s[Min(start, |s|)..Min(start + perPage, |s|)]
    ensures |PageOf(s, page, perPage)| <= perPage
  {
    MulNonNegative(page - 1, perPage);
  }

  lemma MulNonNegative(a: nat, b: nat)
    ensures a * b >= 0
  {
  }

  lemma MulSucc(k: nat, n: nat)
    requires k > 0
    ensures (k - 1) * n + n == k * n
  {
  }

  /** The page count is the ceiling of len / N: 0 for no rows, and just enough pages otherwise. */
  lemma TotalPagesIsCeiling(len: nat, perPage: nat)
    requires perPage > 0
    ensures len == 0 <==> TotalPages(len, perPage) == 0
    ensures len <= TotalPages(len, perPage) * perPage
    ensures len > 0 ==> (TotalPages(len, perPage) - 1) * perPage < len
  {
    var t := TotalPages(len, perPage);
    var q, m := (len + perPage - 1) / perPage, (len + perPage - 1) % perPage;
    assert len + perPage - 1 == q * perPage + m && 0 <= m < perPage;
    assert t * perPage == len + perPage - 1 - m;
    if t > 0 { MulSucc(t, perPage); }
  }

  /** The concatenation of pages 1..k. */
  function PagesUpTo<T>(s: seq<T>, perPage: nat, k: nat): seq<T>
    requires perPage > 0
  {
    if k == 0 then [] else PagesUpTo(s, perPage, k - 1) + PageOf(s, k, perPage)
  }

  /** Pages 1..k together are the first k * N rows. */
  lemma {:induction false} PagesUpToIsPrefix<T>(s: seq<T>, perPage: nat, k: nat)
    requires perPage > 0
    ensures PagesUpTo(s, perPage, k) == s[..Min(k * perPage, |s|)]
  {
    if k > 0 {
      PagesUpToIsPrefix(s, perPage, k - 1);
      PageIsWindow(s, k, perPage);
      var lo, hi := (k - 1) * perPage, k * perPage;
      MulSucc(k, perPage);
      MulNonNegative(k - 1, perPage);
      assert hi == lo + perPage;
      var a, b := Min(lo, |s|), Min(hi, |s|);
      assert PageOf(s, k, perPage) == s[a..b];
      assert PagesUpTo(s, perPage, k) == s[..a] + s[a..b];
      assert s[..a] + s[a..b] == s[..b];
    }
  }

  /** Reading every page from 1 to the page count gives back the whole list. */
  lemma AllPagesCoverList<T>(s: seq<T>, perPage: nat)
    requires perPage > 0
    ensures PagesUpTo(s, perPage, TotalPages(|s|, perPage)) == s
  {
    var t := TotalPages(|s|, perPage);
    TotalPagesIsCeiling(|s|, perPage);
    PagesUpToIsPrefix(s, perPage, t);
    assert s[..|s|] == s;
  }

  /** Pages past the page count are empty. */
  lemma PagesPastEndEmpty<T>(s: seq<T>, page: int, perPage: nat)
    requires perPage > 0 && page > TotalPages(|s|, perPage)
    ensures PageOf(s, page, perPage) == []
  {
    TotalPagesIsCeiling(|s|, perPage);
    var t := TotalPages(|s|, perPage);
    assert (page - 1) * perPage >= t * perPage by {
      assert page - 1 >= t;
      MulMonotone(t, page - 1, perPage);
    }
  }

  lemma MulMonotone(a: nat, b: nat, c: nat)
    requires a <= b
    ensures a * c <= b * c
  {
  }

  /** Page 0 is empty: its slice runs from len - N (or 0) to 0. */
  lemma PageZeroEmpty<T>(s: seq<T>, perPage: nat)
    requires perPage > 0
    ensures PageOf(s, 0, perPage) == []
  {
  }

  // ---------------------------------------------------------------------
  // Participation

  /**
   * `len(row.get(key, "").split(";")) if row.get(key) else 0`: nothing for a
   * missing or empty cell, otherwise one more than the number of ';'.
   */
  function CellCount(row: Row, key: string): (n: nat)
    ensures key !in row || row[key] == "" ==> n == 0
    ensures key in row && row[key] != "" ==> n == 1 + Occurrences(row[key], ';')
  {
    if key in row && row[key] != "" then |Split(row[key], ';')| else 0
  }

  /**
   * A cell written as the ';'-join of a non-empty list of identifiers that
   * contain no ';' counts as exactly that many entries, unless the join is
   * the empty string (a single empty identifier), which counts as none.
   */
  lemma CellCountOfJoin(row: Row, key: string, ids: seq<string>)
    requires |ids| >= 1 && forall i :: 0 <= i < |ids| ==> ';' !in ids[i]
    requires key in row && row[key] == Join(ids, ';')
    ensures CellCount(row, key) == if row[key] == "" then 0 else |ids|
  {
    SplitJoin(ids, ';');
  }

  datatype Stat = Stat(autor: string, comunicados: nat, datos: nat, cesiones: nat, cronicas: nat, total: nat)

  /** The record the loop appends for one participation row; needs the `autor` key. */
  function BuildStat(row: Row): (s: Stat)
    requires "autor" in row
    ensures s.autor == row["autor"]
    ensures s.total == s.comunicados + s.datos + s.cesiones + s.cronicas
    ensures s.comunicados == CellCount(row, "comunicados") && s.datos == CellCount(row, "datos")
    ensures s.cesiones == CellCount(row, "cesiones") && s.cronicas == CellCount(row, "cronicas")
  {
    var c, d, e, r := CellCount(row, "comunicados"), CellCount(row, "datos"), CellCount(row, "cesiones"), CellCount(row, "cronicas");
    Stat(row["autor"], c, d, e, r, c + d + e + r)
  }

  predicate HaveAuthors(rows: seq<Row>) {
    forall i :: 0 <= i < |rows| ==> "autor" in rows[i]
  }

  /** The records built for `rows`, in file order. */
  function BuildStats(rows: seq<Row>): (r: seq<Stat>)
    requires HaveAuthors(rows)
    ensures |r| == |rows| && forall i :: 0 <= i < |rows| ==> r[i] == BuildStat(rows[i])
  {
    if rows == [] then [] else BuildStats(rows[..|rows| - 1]) + [BuildStat(rows[|rows| - 1])]
  }

  // The stable descending sort by total (`list.sort(key=total, reverse=True)`)

  predicate SortedByTotal(s: seq<Stat>) {
    forall i, j :: 0 <= i < j < |s| ==> s[i].total >= s[j].total
  }

  /** The records of `s` with total `k`, in order. */
  function WithTotal(s: seq<Stat>, k: nat): seq<Stat> {
    if s == [] then [] else (if s[0].total == k then [s[0]] else []) + WithTotal(s[1..], k)
  }

  lemma WithTotalCons(a: Stat, t: seq<Stat>, k: nat)
    ensures WithTotal([a] + t, k) == (if a.total == k then [a] else []) + WithTotal(t, k)
  {
    assert ([a] + t)[0] == a && ([a] + t)[1..] == t;
  }

  predicate AtMost(s: seq<Stat>, top: nat) {
    forall i :: 0 <= i < |s| ==> s[i].total <= top
  }

  /** Being at most `top` depends only on the elements, not their order. */
  lemma AtMostPermutation(rest: seq<Stat>, tail: seq<Stat>, x: Stat, top: nat)
    requires multiset(rest) == multiset(tail) + multiset{x}
    requires AtMost(tail, top) && x.total <= top
    ensures AtMost(rest, top)
  {
    forall i | 0 <= i < |rest| ensures rest[i].total <= top {
      assert rest[i] in multiset(rest);
      if rest[i] != x {
        assert rest[i] in multiset(tail);
        var j :| 0 <= j < |tail| && tail[j] == rest[i];
      }
    }
  }

  /** Insert `x` before the first record whose total is not larger. */
  function InsertByTotal(x: Stat, s: seq<Stat>): (r: seq<Stat>)
    requires SortedByTotal(s)
    ensures SortedByTotal(r)
    ensures multiset(r) == multiset(s) + multiset{x}
  {
    if s == [] || x.total >= s[0].total then
      [x] + s
    else
      var tail := s[1..];
      assert s == [s[0]] + tail;
      var rest := InsertByTotal(x, tail);
      assert AtMost(tail, s[0].total);
      AtMostPermutation(rest, tail, x, s[0].total);
      SortedCons(s[0], rest);
      [s[0]] + rest
  }

  lemma SortedCons(a: Stat, rest: seq<Stat>)
    requires SortedByTotal(rest) && AtMost(rest, a.total)
    ensures SortedByTotal([a] + rest)
  {
    var r := [a] + rest;
    assert forall i :: 1 <= i < |r| ==> r[i] == rest[i - 1];
  }

  lemma SortedTail(s: seq<Stat>)
    requires s != [] && SortedByTotal(s)
    ensures SortedByTotal(s[1..])
  {
    assert forall i :: 0 <= i < |s| - 1 ==> s[1..][i] == s[i + 1];
  }

  lemma InsertByTotalUnfold(x: Stat, s: seq<Stat>)
    requires s != [] && SortedByTotal(s) && x.total < s[0].total
    ensures SortedByTotal(s[1..])
    ensures InsertByTotal(x, s) == [s[0]] + InsertByTotal(x, s[1..])
  {
    SortedTail(s);
  }

  /** Inserting `x` puts it first among the records with its total. */
  lemma {:induction false} InsertByTotalStable(x: Stat, s: seq<Stat>, k: nat)
    requires SortedByTotal(s)
    ensures WithTotal(InsertByTotal(x, s), k) == (if x.total == k then [x] else []) + WithTotal(s, k)
  {
    if s == [] || x.total >= s[0].total {
      WithTotalCons(x, s, k);
    } else {
      var tail := s[1..];
      SortedTail(s);
      InsertByTotalStable(x, tail, k);
      InsertByTotalUnfold(x, s);
      assert s == [s[0]] + tail;
      WithTotalCons(s[0], InsertByTotal(x, tail), k);
      WithTotalCons(s[0], tail, k);
      // `x` and `s[0]` have different totals, so at most one of them is kept
      if s[0].total == k {
        assert WithTotal(InsertByTotal(x, s), k) == [s[0]] + WithTotal(tail, k);
      } else {
        assert WithTotal(InsertByTotal(x, s), k) == WithTotal(InsertByTotal(x, tail), k);
      }
    }
  }

  /** The sorted records: ordered by total, largest first, and a permutation of the input. */
  function SortByTotal(s: seq<Stat>): (r: seq<Stat>)
    ensures SortedByTotal(r)
    ensures multiset(r) == multiset(s)
  {
    if s == [] then []
    else
      assert s == [s[0]] + s[1..];
      InsertByTotal(s[0], SortByTotal(s[1..]))
  }

  /** The sort is stable: for every total, the records with that total keep their input order. */
  lemma {:induction false} SortByTotalStable(s: seq<Stat>, k: nat)
    ensures WithTotal(SortByTotal(s), k) == WithTotal(s, k)
  {
    if s != [] {
      SortByTotalStable(s[1..], k);
      InsertByTotalStable(s[0], SortByTotal(s[1..]), k);
      assert s == [s[0]] + s[1..];
      WithTotalCons(s[0], s[1..], k);
    }
  }

  lemma HaveAuthorsSnoc(rows: seq<Row>, i: nat)
    requires i < |rows| && HaveAuthors(rows[..i]) && "autor" in rows[i]
    ensures HaveAuthors(rows[..i + 1])
    ensures BuildStats(rows[..i + 1]) == BuildStats(rows[..i]) + [BuildStat(rows[i])]
  {
    assert rows[..i + 1][..i] == rows[..i];
  }

  /**
   * The `participacion` route. `failed` with a file present is the KeyError
   * of a row without `autor`: the records built before it stay, unsorted.
   */
  method Participacion(file: Option<seq<Row>>) returns (stats: seq<Stat>, failed: bool)
    ensures file.None? ==> stats == [] && failed
    ensures file.Some? && HaveAuthors(file.value) ==>
      !failed && stats == SortByTotal(BuildStats(file.value))
      && SortedByTotal(stats) && multiset(stats) == multiset(BuildStats(file.value))
      && forall k :: WithTotal(stats, k) == WithTotal(BuildStats(file.value), k)
    ensures file.Some? && !HaveAuthors(file.value) ==> (failed &&
      exists k :: 0 <= k < |file.value| && "autor" !in file.value[k]
        && HaveAuthors(file.value[..k]) && stats == BuildStats(file.value[..k]))
  {
    if file.None? {
      return [], true;
    }
    var rows := file.value;
    stats := [];
    var i := 0;
    while i < |rows|
      invariant 0 <= i <= |rows|
      invariant HaveAuthors(rows[..i])
      invariant stats == BuildStats(rows[..i])
    {
      if "autor" !in rows[i] {
        assert !HaveAuthors(rows);
        return stats, true;
      }
      HaveAuthorsSnoc(rows, i);
      stats := stats + [BuildStat(rows[i])];
      i := i + 1;
    }
    assert rows[..i] == rows;
    var built := stats;
    stats := SortByTotal(built);
    forall k ensures WithTotal(stats, k) == WithTotal(built, k) {
      SortByTotalStable(built, k);
    }
    failed := false;
  }
}
