/**
 * The `palmares` route: group the rows of the honours file by season,
 * collecting fines, sanctions and "farolillo" entries in each season's
 * "otros" list and keeping the last value of every other category, then
 * list the seasons in descending string order.
 */
module Palmares {
  import opened Wrappers
  import opened PyStr
  import opened Csv

  datatype Otro = Otro(tipo: string, valor: string)

  /** A value of a season's inner dictionary: a category's value, or the "otros" list. */
  datatype Cell = Value(text: string) | Others(items: seq<Otro>)

  type SeasonRecord = map<string, Cell>

  /** The outer `defaultdict`: its records, and its keys in insertion order. */
  datatype Seasons = Seasons(order: seq<string>, records: map<string, SeasonRecord>)

  const OtrosKey := "otros"

  /** `category in ["multa", "sancion", "farolillo"]`. */
  predicate IsSpecial(c: string) {
    c == "multa" || c == "sancion" || c == "farolillo"
  }

  /** A row of the file, stripped: `row.get(k, "").strip()` for its three columns. */
  datatype Fact = Fact(season: string, category: string, value: string)

  function Read(row: Row): Fact {
    Fact(Strip(Get(row, "temporada", "")), Strip(Get(row, "categoria", "")), Strip(Get(row, "valor", "")))
  }

  function ReadAll(rows: seq<Row>): (facts: seq<Fact>)
    ensures |facts| == |rows| && forall i :: 0 <= i < |rows| ==> facts[i] == Read(rows[i])
  {
    seq(|rows|, i requires 0 <= i < |rows| => Read(rows[i]))
  }

  /** Rows with an empty stripped season or category are skipped. */
  predicate Complete(f: Fact) {
    f.season != "" && f.category != ""
  }

  function RecordOf(g: Seasons, s: string): SeasonRecord {
    if s in g.records then g.records[s] else map[]
  }

  /**
   * One iteration of the loop; None is the AttributeError of appending to
   * "otros" after a row whose category was literally "otros" replaced the
   * list by a string.
   */
  function Step(g: Seasons, f: Fact): Option<Seasons> {
    if !Complete(f) then Some(g)
    else
      var s := f.season;
      var order := if s in g.records then g.order else g.order + [s];
      var rec := RecordOf(g, s);
      if IsSpecial(f.category) then
        var items := if OtrosKey in rec then rec[OtrosKey] else Others([]);
        match items
        case Value(_) => None
        case Others(l) => Some(Seasons(order, g.records[s := rec[OtrosKey := Others(l + [Otro(f.category, f.value)])]]))
      else
        Some(Seasons(order, g.records[s := rec[f.category := Value(f.value)]]))
  }

  /** The grouping of the file, row by row from the first; None once a step fails. */
  function Group(facts: seq<Fact>): Option<Seasons> {
    if facts == [] then Some(Seasons([], map[]))
    else match Group(facts[..|facts| - 1])
      case None => None
      case Some(g) => Step(g, facts[|facts| - 1])
  }

  lemma {:induction false} GroupNoneStays(facts: seq<Fact>, n: nat)
    requires n <= |facts| && Group(facts[..n]).None?
    ensures Group(facts).None?
  {
    if n < |facts| {
      var init := facts[..|facts| - 1];
      assert init[..n] == facts[..n];
      GroupNoneStays(init, n);
    } else {
      assert facts[..n] == facts;
    }
  }

  // ---------------------------------------------------------------------
  // Reference definitions, read off the file

  /** The seasons of the complete rows. */
  function SeasonsOf(facts: seq<Fact>): set<string> {
    if facts == [] then {}
    else SeasonsOf(facts[..|facts| - 1]) + (var last := facts[|facts| - 1]; if Complete(last) then {last.season} else {})
  }

  predicate Matches(f: Fact, s: string, c: string) {
    Complete(f) && f.season == s && f.category == c
  }

  /** The value of the last complete row of season `s` and category `c`. */
  function LastValue(facts: seq<Fact>, s: string, c: string): Option<string> {
    if facts == [] then None
    else
      var last := facts[|facts| - 1];
      if Matches(last, s, c) then Some(last.value) else LastValue(facts[..|facts| - 1], s, c)
  }

  /** The fines, sanctions and "farolillo" entries of season `s`, in file order. */
  function OtrosOf(facts: seq<Fact>, s: string): seq<Otro> {
    if facts == [] then []
    else
      var last := facts[|facts| - 1];
      OtrosOf(facts[..|facts| - 1], s)
        + (if Complete(last) && last.season == s && IsSpecial(last.category) then [Otro(last.category, last.value)] else [])
  }

  /** Some row of season `s` has the literal category "otros". */
  ghost predicate HasOtrosRow(facts: seq<Fact>, s: string) {
    exists i :: 0 <= i < |facts| && Matches(facts[i], s, OtrosKey)
  }

  /**
   * A row of category "otros" followed, in the same season, by a fine,
   * sanction or "farolillo" row.
   */
  ghost predicate Clash(facts: seq<Fact>) {
    exists j :: 0 <= j < |facts| && Complete(facts[j]) && IsSpecial(facts[j].category)
      && HasOtrosRow(facts[..j], facts[j].season)
  }

  /**
   * What one entry of the grouping holds: nothing under a special category;
   * the last value under any other category that occurs; and, under "otros"
   * when no row has that category, the season's special entries in file order.
   */
  predicate RecordEntry(facts: seq<Fact>, rec: SeasonRecord, s: string, c: string) {
    if IsSpecial(c) then c !in rec
    else if LastValue(facts, s, c).Some? then c in rec && rec[c] == Value(LastValue(facts, s, c).value)
    else if c == OtrosKey && OtrosOf(facts, s) != [] then c in rec && rec[c] == Others(OtrosOf(facts, s))
    else c !in rec
  }

  predicate Distinct<T(==)>(s: seq<T>) {
    forall i, j :: 0 <= i < j < |s| ==> s[i] != s[j]
  }

  /** The grouping describes the file: one entry per season, each entry as `RecordEntry` says. */
  ghost predicate Describes(facts: seq<Fact>, g: Seasons) {
    && g.records.Keys == SeasonsOf(facts)
    && Distinct(g.order)
    && (forall k :: k in g.order <==> k in g.records)
    && (forall s, c :: RecordEntry(facts, RecordOf(g, s), s, c))
  }

  lemma {:induction false} LastValueSome(facts: seq<Fact>, s: string, c: string)
    ensures LastValue(facts, s, c).Some? <==> exists i :: 0 <= i < |facts| && Matches(facts[i], s, c)
  {
    if facts != [] {
      var init := facts[..|facts| - 1];
      LastValueSome(init, s, c);
      assert forall i :: 0 <= i < |init| ==> init[i] == facts[i];
    }
  }

  /**
   * The grouping fails exactly when an "otros" row precedes a special row
   * of the same season; otherwise it describes the file.
   */
  lemma {:induction false} GroupMeaning(facts: seq<Fact>)
    ensures Group(facts).None? <==> Clash(facts)
    ensures Group(facts).Some? ==> Describes(facts, Group(facts).value)
  {
    if facts == [] {
      var g := Seasons([], map[]);
      forall s, c ensures RecordEntry(facts, RecordOf(g, s), s, c) { }
    } else {
      var init, last := facts[..|facts| - 1], facts[|facts| - 1];
      GroupMeaning(init);
      ClashSnoc(facts);
      if Group(init).Some? {
        var g := Group(init).value;
        if Complete(last) && IsSpecial(last.category) {
          LastValueSome(init, last.season, OtrosKey);
          assert RecordEntry(init, RecordOf(g, last.season), last.season, OtrosKey);
        }
        if Step(g, last).Some? {
          StepMeaning(init, g, last);
          assert init + [last] == facts;
        }
      }
    }
  }

  /** A clash is one among all rows but the last, or an "otros" row before a special last row. */
  lemma ClashSnoc(facts: seq<Fact>)
    requires facts != []
    ensures var init, last := facts[..|facts| - 1], facts[|facts| - 1];
      Clash(facts) <==> (Clash(init) || (Complete(last) && IsSpecial(last.category) && HasOtrosRow(init, last.season)))
  {
    var init, last := facts[..|facts| - 1], facts[|facts| - 1];
    assert forall j :: 0 <= j < |init| ==> init[..j] == facts[..j] && init[j] == facts[j];
    if Clash(facts) && !Clash(init) {
      var j :| 0 <= j < |facts| && Complete(facts[j]) && IsSpecial(facts[j].category) && HasOtrosRow(facts[..j], facts[j].season);
      assert j == |init|;
    }
    if Complete(last) && IsSpecial(last.category) && HasOtrosRow(init, last.season) {
      assert facts[..|init|] == init;
    }
  }

  /** A successful step on a grouping that describes `init` describes `init + [last]`. */
  lemma StepMeaning(init: seq<Fact>, g: Seasons, last: Fact)
    requires Describes(init, g)
    requires Step(g, last).Some?
    ensures Describes(init + [last], Step(g, last).value)
  {
    var facts := init + [last];
    assert facts[..|facts| - 1] == init && facts[|facts| - 1] == last;
    var g' := Step(g, last).value;
    if Complete(last) {
      assert g'.records.Keys == g.records.Keys + {last.season};
      if last.season !in g.records {
        assert g'.order == g.order + [last.season];
      }
    }
    forall s, c ensures RecordEntry(facts, RecordOf(g', s), s, c) {
      StepEntry(init, g, last, s, c);
    }
  }

  /** One entry of the grouping after a successful step. */
  lemma StepEntry(init: seq<Fact>, g: Seasons, last: Fact, s: string, c: string)
    requires forall s, c :: RecordEntry(init, RecordOf(g, s), s, c)
    requires Step(g, last).Some?
    ensures RecordEntry(init + [last], RecordOf(Step(g, last).value, s), s, c)
  {
    var facts := init + [last];
    assert facts[..|facts| - 1] == init && facts[|facts| - 1] == last;
    assert RecordEntry(init, RecordOf(g, s), s, c);
    if Complete(last) && s == last.season {
      assert RecordEntry(init, RecordOf(g, s), s, OtrosKey);
    }
  }

  // ---------------------------------------------------------------------
  // The loop

  lemma GroupSnoc(facts: seq<Fact>, i: nat)
    requires i < |facts| && Group(facts[..i]).Some?
    ensures Group(facts[..i + 1]) == Step(Group(facts[..i]).value, facts[i])
  {
    assert facts[..i + 1][..i] == facts[..i];
  }

  /** One pass of the loop body on the nested `defaultdict`; `failed` is the AttributeError. */
  method StepRow(order: seq<string>, seasons: map<string, SeasonRecord>, row: Row)
    returns (order': seq<string>, seasons': map<string, SeasonRecord>, failed: bool)
    ensures failed <==> Step(Seasons(order, seasons), Read(row)).None?
    ensures !failed ==> Step(Seasons(order, seasons), Read(row)) == Some(Seasons(order', seasons'))
  {
    ghost var before := Seasons(order, seasons);
    var seasonData := Strip(Get(row, "temporada", ""));
    var category := Strip(Get(row, "categoria", ""));
    var value := Strip(Get(row, "valor", ""));
    assert Read(row) == Fact(seasonData, category, value);
    order', seasons' := order, seasons;
    if seasonData == "" || category == "" {
      return order', seasons', false;
    }
    if seasonData !in seasons' {
      order' := order' + [seasonData];
      seasons' := seasons'[seasonData := map[]];
    }
    ghost var rec0 := RecordOf(before, seasonData);
    var record := seasons'[seasonData];
    assert record == rec0;
    if IsSpecial(category) {
      ghost var cell0 := if OtrosKey in rec0 then rec0[OtrosKey] else Others([]);
      if OtrosKey !in record {
        record := record[OtrosKey := Others([])];
      }
      assert record[OtrosKey] == cell0;
      match record[OtrosKey]
      case Value(_) =>
        return order', seasons', true;
      case Others(items) =>
        record := record[OtrosKey := Others(items + [Otro(category, value)])];
        assert record == rec0[OtrosKey := Others(items + [Otro(category, value)])];
    } else {
      record := record[category := Value(value)];
    }
    seasons' := seasons'[seasonData := record];
    assert seasons' == seasons[seasonData := record];
    failed := false;
  }

  /** The `for row in palmares_data` loop over the nested `defaultdict`. */
  method GroupRows(rows: seq<Row>) returns (g: Seasons, failed: bool)
    ensures failed <==> Group(ReadAll(rows)).None?
    ensures !failed ==> Group(ReadAll(rows)) == Some(g)
  {
    ghost var facts := ReadAll(rows);
    var order: seq<string> := [];
    var seasons: map<string, SeasonRecord> := map[];
    var i := 0;
    while i < |rows|
      invariant 0 <= i <= |rows|
      invariant Group(facts[..i]) == Some(Seasons(order, seasons))
    {
      GroupSnoc(facts, i);
      var stop;
      order, seasons, stop := StepRow(order, seasons, rows[i]);
      if stop {
        GroupNoneStays(facts, i + 1);
        return Seasons(order, seasons), true;
      }
      i := i + 1;
    }
    assert facts[..i] == facts;
    return Seasons(order, seasons), false;
  }

  // ---------------------------------------------------------------------
  // Sorting the seasons

  /** Each key comes after every larger one: strictly descending. */
  predicate Descending(keys: seq<string>) {
    forall i, j :: 0 <= i < j < |keys| ==> Below(keys[j], keys[i])
  }

  /** A strictly descending list has no key twice. */
  lemma DescendingDistinct(keys: seq<string>)
    requires Descending(keys)
    ensures Distinct(keys)
  {
    forall i, j | 0 <= i < j < |keys| ensures keys[i] != keys[j] {
      BelowIrreflexive(keys[i]);
    }
  }

  predicate AllBelow(keys: seq<string>, top: string) {
    forall i :: 0 <= i < |keys| ==> Below(keys[i], top)
  }

  /** A key above the first of a descending list is above all of it. */
  lemma AboveAll(x: string, keys: seq<string>)
    requires Descending(keys) && keys != [] && Below(keys[0], x)
    ensures AllBelow(keys, x)
  {
    forall j | 0 <= j < |keys| ensures Below(keys[j], x) {
      if j > 0 { BelowTransitive(keys[j], keys[0], x); }
    }
  }

  /** Being below `top` depends only on the elements, not their order. */
  lemma AllBelowPermutation(rest: seq<string>, tail: seq<string>, x: string, top: string)
    requires multiset(rest) == multiset(tail) + multiset{x}
    requires AllBelow(tail, top) && Below(x, top)
    ensures AllBelow(rest, top)
  {
    forall i | 0 <= i < |rest| ensures Below(rest[i], top) {
      assert rest[i] in multiset(rest);
      if rest[i] != x {
        assert rest[i] in multiset(tail);
        var j :| 0 <= j < |tail| && tail[j] == rest[i];
      }
    }
  }

  function InsertKey(x: string, keys: seq<string>): (r: seq<string>)
    requires Descending(keys) && x !in keys
    ensures Descending(r)
    ensures multiset(r) == multiset(keys) + multiset{x}
  {
    if keys == [] then [x]
    else if Below(keys[0], x) then
      AboveAll(x, keys);
      [x] + keys
    else
      assert x != keys[0];
      BelowTotal(x, keys[0]);
      assert keys == [keys[0]] + keys[1..];
      var tail := keys[1..];
      var rest := InsertKey(x, tail);
      assert AllBelow(tail, keys[0]);
      AllBelowPermutation(rest, tail, x, keys[0]);
      var r := [keys[0]] + rest;
      assert forall i :: 1 <= i < |r| ==> r[i] == rest[i - 1];
      r
  }

  /** `sorted(keys, reverse=True)` for distinct keys. */
  function SortKeys(keys: seq<string>): (r: seq<string>)
    requires Distinct(keys)
    ensures Descending(r)
    ensures multiset(r) == multiset(keys)
  {
    if keys == [] then []
    else
      assert keys == [keys[0]] + keys[1..];
      var rest := SortKeys(keys[1..]);
      assert keys[0] !in multiset(rest);
      InsertKey(keys[0], rest)
  }

  function KeysOf(items: seq<(string, SeasonRecord)>): (keys: seq<string>)
    ensures |keys| == |items| && forall i :: 0 <= i < |items| ==> keys[i] == items[i].0
  {
    if items == [] then [] else [items[0].0] + KeysOf(items[1..])
  }

  /** A permutation has the same elements. */
  lemma SameElements(a: seq<string>, b: seq<string>, k: string)
    requires multiset(a) == multiset(b)
    ensures k in a <==> k in b
  {
    assert k in a <==> k in multiset(a);
    assert k in b <==> k in multiset(b);
  }

  /** The pair of each key with its record, in the order of `keys`. */
  function ItemsOf(keys: seq<string>, records: map<string, SeasonRecord>): (items: seq<(string, SeasonRecord)>)
    requires forall k :: k in keys ==> k in records
    ensures KeysOf(items) == keys
    ensures forall i :: 0 <= i < |items| ==> items[i].0 in records && items[i].1 == records[items[i].0]
  {
    if keys == [] then []
    else
      var rest := ItemsOf(keys[1..], records);
      var items := [(keys[0], records[keys[0]])] + rest;
      assert items[1..] == rest;
      items
  }

  /**
   * `sorted(seasons.items(), key=season, reverse=True)`: every season once,
   * with its record, in strictly descending string order.
   */
  function SortedItems(g: Seasons): (items: seq<(string, SeasonRecord)>)
    requires Distinct(g.order) && forall k :: k in g.order <==> k in g.records
    ensures Descending(KeysOf(items)) && Distinct(KeysOf(items))
    ensures forall i :: 0 <= i < |items| ==> items[i].0 in g.records && items[i].1 == g.records[items[i].0]
    ensures forall s :: s in g.records <==> s in KeysOf(items)
  {
    var keys := SortKeys(g.order);
    DescendingDistinct(keys);
    assert forall k :: k in keys <==> k in g.records by {
      forall k ensures k in keys <==> k in g.records { SameElements(keys, g.order, k); }
    }
    ItemsOf(keys, g.records)
  }

  /**
   * The route. On any failure before the grouping finishes, or on the
   * AttributeError of a clash, the page shows no seasons.
   */
  method PalmaresView(file: Option<seq<Row>>) returns (items: seq<(string, SeasonRecord)>, failed: bool)
    ensures file.None? ==> failed && items == []
    ensures file.Some? ==> (failed <==> Clash(ReadAll(file.value)))
    ensures failed ==> items == []
    ensures !failed ==> (file.Some? && Group(ReadAll(file.value)).Some?
      && Describes(ReadAll(file.value), Group(ReadAll(file.value)).value)
      && items == SortedItems(Group(ReadAll(file.value)).value))
  {
    if file.None? {
      return [], true;
    }
    var g;
    g, failed := GroupRows(file.value);
    GroupMeaning(ReadAll(file.value));
    if failed {
      return [], true;
    }
    items := SortedItems(g);
  }
}
