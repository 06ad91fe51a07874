/**
 * The ingestion run of the board scraper: read the credentials, take the
 * fingerprints of the messages already stored, append every fetched board
 * item whose fingerprint is not among them, and write both CSV files only
 * when something was appended.
 *
 * The Drive and board responses are inputs; the run reports what it would
 * have asked of them as a log of effects.
 */
module Ingest {
  import opened Wrappers
  import opened PyStr
  import opened Csv
  import opened Seqs

  type UserId = int

  /** The `author` object of a board item; `id` may be absent. */
  datatype Author = Author(id: Option<UserId>)

  /** A raw board item; every key may be missing. */
  datatype BoardItem = BoardItem(
    date: Option<int>,          // epoch seconds
    title: Option<string>,
    content: Option<string>,    // HTML
    author: Option<Author>)

  /**
   * The foreign library calls the run depends on, left uninterpreted:
   * SHA-256 hex digest of the UTF-8 bytes, BeautifulSoup's
   * `get_text(separator=" ", strip=True)`, the Europe/Madrid
   * "%d-%m-%Y %H:%M:%S" rendering of a timestamp, and the three helpers of
   * the processing module.
   */
  datatype Library = Library(
    sha256: string -> string,
    getText: string -> string,
    madridTime: int -> string,
    categorize: string -> string,
    sortMessages: seq<Row> -> seq<Row>,
    participation: (seq<Row>, map<UserId, string>) -> seq<Row>)

  const UnknownAuthor := "Autor Desconocido"
  const Untitled := "Sin título"

  // ---------------------------------------------------------------------
  // Credentials

  /** A secret read from its file, with the configuration value as fallback. */
  datatype Secret = Secret(fromFile: Option<string>, fromConfig: Option<string>)

  /** Python truthiness of an optional string: present and non-empty. */
  predicate Truthy(v: Option<string>) {
    v.Some? && v.value != ""
  }

  /** `read_secret_from_file(path) or config.VALUE`. */
  function Resolve(s: Secret): (r: Option<string>)
    ensures Truthy(r) <==> Truthy(s.fromFile) || Truthy(s.fromConfig)
    ensures Truthy(s.fromFile) ==> r == s.fromFile
  {
    if Truthy(s.fromFile) then s.fromFile else s.fromConfig
  }

  /** `all([email, password, folder_id])`. */
  predicate CredentialsOk(email: Secret, password: Secret, folder: Secret) {
    Truthy(Resolve(email)) && Truthy(Resolve(password)) && Truthy(Resolve(folder))
  }

  // ---------------------------------------------------------------------
  // Fingerprints

  /** `item.get("content", "")`. */
  function ContentHtml(item: BoardItem): string {
    item.content.GetOr("")
  }

  /** `f"{item.get('date', '')}"`. */
  function DateText(date: Option<int>): string {
    if date.Some? then Decimal(date.value) else ""
  }

  /** The string that is hashed: the date immediately followed by the extracted text. */
  function UniqueString(item: BoardItem, lib: Library): string {
    DateText(item.date) + lib.getText(ContentHtml(item))
  }

  function Fingerprint(item: BoardItem, lib: Library): string {
    lib.sha256(UniqueString(item, lib))
  }

  /**
   * The fingerprint depends on the date and the visible text only: two
   * items whose HTML differs but whose extracted text is the same get the
   * same id.
   */
  lemma FingerprintOfText(x: BoardItem, y: BoardItem, lib: Library)
    requires x.date == y.date
    requires lib.getText(ContentHtml(x)) == lib.getText(ContentHtml(y))
    ensures Fingerprint(x, lib) == Fingerprint(y, lib)
  {
  }

  /**
   * Date and text are concatenated without a separator, so two different
   * (date, text) pairs can hash the same string: date 1 with text "23" and
   * date 12 with text "3".
   */
  lemma FingerprintKeyCollision(x: BoardItem, y: BoardItem, lib: Library)
    requires x.date == Some(1) && y.date == Some(12)
    requires lib.getText(ContentHtml(x)) == "23" && lib.getText(ContentHtml(y)) == "3"
    ensures x.date != y.date && lib.getText(ContentHtml(x)) != lib.getText(ContentHtml(y))
    ensures Fingerprint(x, lib) == Fingerprint(y, lib)
  {
    assert Decimal(1) == "1";
    assert Decimal(12) == Digits(1) + "2";
    assert UniqueString(x, lib) == "123" == UniqueString(y, lib);
  }

  // ---------------------------------------------------------------------
  // Rows

  /** `author.get("id") if author else None`. */
  function AuthorId(item: BoardItem): Option<UserId> {
    if item.author.Some? then item.author.value.id else None
  }

  /**
   * `user_map.get(author_id, "Autor Desconocido")`: the mapped name when the
   * item names an author known to the map, the placeholder otherwise.
   */
  function AuthorName(item: BoardItem, userMap: map<UserId, string>): (r: string)
    ensures AuthorId(item).Some? && AuthorId(item).value in userMap ==> r == userMap[AuthorId(item).value]
    ensures item.author.None? || item.author.value.id.None? ==> r == UnknownAuthor
    ensures AuthorId(item).Some? && AuthorId(item).value !in userMap ==> r == UnknownAuthor
  {
    match AuthorId(item)
    case Some(id) => if id in userMap then userMap[id] else UnknownAuthor
    case None => UnknownAuthor
  }

  const MessageFields: set<string> := {"id_hash", "fecha", "autor", "titulo", "contenido", "categoria"}

  /**
   * The row stored for a new item, or None when the item has no date
   * (`item["date"]` raises KeyError and the run ends).
   */
  function NewRow(item: BoardItem, userMap: map<UserId, string>, lib: Library): (r: Option<Row>)
    ensures r.None? <==> item.date.None?
    ensures r.Some? ==> r.value.Keys == MessageFields
    ensures r.Some? ==> r.value["id_hash"] == Fingerprint(item, lib)
    ensures r.Some? ==> r.value["contenido"] == ContentHtml(item)
    ensures r.Some? ==> r.value["autor"] == AuthorName(item, userMap) && r.value["fecha"] == lib.madridTime(item.date.value)
    ensures r.Some? && item.title.None? ==> r.value["titulo"] == Untitled && r.value["categoria"] == lib.categorize("")
    ensures r.Some? && item.title.Some? ==> r.value["titulo"] == item.title.value && r.value["categoria"] == lib.categorize(item.title.value)
  {
    if item.date.None? then None
    else Some(map[
      "id_hash" := Fingerprint(item, lib),
      "fecha" := lib.madridTime(item.date.value),
      "autor" := AuthorName(item, userMap),
      "titulo" := item.title.GetOr(Untitled),
      "contenido" := ContentHtml(item),
      "categoria" := lib.categorize(item.title.GetOr(""))])
  }

  /** Every stored row has an `id_hash` (otherwise `msg["id_hash"]` raises). */
  predicate HaveIds(rows: seq<Row>) {
    forall i :: 0 <= i < |rows| ==> "id_hash" in rows[i]
  }

  /** The fingerprints of rows: `{msg["id_hash"] for msg in rows}`. */
  function IdsOf(rows: seq<Row>): (ids: set<string>)
    requires HaveIds(rows)
    ensures forall i :: 0 <= i < |rows| ==> rows[i]["id_hash"] in ids
    ensures forall id :: id in ids ==> exists i :: 0 <= i < |rows| && rows[i]["id_hash"] == id
  {
    set i | 0 <= i < |rows| :: rows[i]["id_hash"]
  }

  // ---------------------------------------------------------------------
  // The dedup/append loop, as a specification

  /**
   * The rows the loop appends for `board`, processed left to right against
   * the fixed set `ids`; None when some new item has no date.
   */
  function NewRows(board: seq<BoardItem>, ids: set<string>, userMap: map<UserId, string>, lib: Library): Option<seq<Row>>
  {
    if board == [] then Some([])
    else
      var item := board[|board| - 1];
      match NewRows(board[..|board| - 1], ids, userMap, lib)
      case None => None
      case Some(acc) =>
        if Fingerprint(item, lib) in ids then Some(acc)
        else match NewRow(item, userMap, lib)
          case None => None
          case Some(row) => Some(acc + [row])
  }

  /** One more board item: the loop's step. */
  lemma NewRowsSnoc(board: seq<BoardItem>, item: BoardItem, ids: set<string>, userMap: map<UserId, string>, lib: Library)
    ensures NewRows(board + [item], ids, userMap, lib) ==
      match NewRows(board, ids, userMap, lib)
      case None => None
      case Some(acc) =>
        if Fingerprint(item, lib) in ids then Some(acc)
        else match NewRow(item, userMap, lib)
          case None => None
          case Some(row) => Some(acc + [row])
  {
    assert (board + [item])[..|board|] == board;
  }

  /** A board item is new when its fingerprint is not in the stored set. */
  predicate IsNew(item: BoardItem, ids: set<string>, lib: Library) {
    Fingerprint(item, lib) !in ids
  }

  function NewIn(ids: set<string>, lib: Library): BoardItem -> bool {
    item => IsNew(item, ids, lib)
  }

  /** The new items, in board order (an independent, head-recursive definition). */
  function FreshItems(board: seq<BoardItem>, ids: set<string>, lib: Library): seq<BoardItem> {
    Filter(board, NewIn(ids, lib))
  }

  /** Every new item carries a date, so the loop does not abort. */
  predicate FreshDated(board: seq<BoardItem>, ids: set<string>, lib: Library) {
    forall i :: 0 <= i < |board| && IsNew(board[i], ids, lib) ==> board[i].date.Some?
  }

  /**
   * The loop aborts exactly when some new item has no date; otherwise it
   * appends one row per new item, in board order, and nothing else: an item
   * is appended if and only if its fingerprint is not in `ids`.
   */
  lemma {:induction false} NewRowsAreFreshItems(board: seq<BoardItem>, ids: set<string>, userMap: map<UserId, string>, lib: Library)
    ensures NewRows(board, ids, userMap, lib).None? <==> !FreshDated(board, ids, lib)
    ensures NewRows(board, ids, userMap, lib).Some? ==>
      var rows := NewRows(board, ids, userMap, lib).value;
      var newItems := FreshItems(board, ids, lib);
      |rows| == |newItems| && forall k :: 0 <= k < |rows| ==> Some(rows[k]) == NewRow(newItems[k], userMap, lib)
  {
    if board != [] {
      var init, item := board[..|board| - 1], board[|board| - 1];
      NewRowsAreFreshItems(init, ids, userMap, lib);
      assert board == init + [item];
      NewRowsSnoc(init, item, ids, userMap, lib);
      FreshDatedSnoc(init, item, ids, lib);
      FilterAppend(init, [item], NewIn(ids, lib));
      assert [item][1..] == [];
    }
  }

  lemma FreshDatedSnoc(init: seq<BoardItem>, item: BoardItem, ids: set<string>, lib: Library)
    ensures FreshDated(init + [item], ids, lib) <==> FreshDated(init, ids, lib) && (!IsNew(item, ids, lib) || item.date.Some?)
  {
    var board := init + [item];
    assert forall i :: 0 <= i < |init| ==> board[i] == init[i];
    assert board[|init|] == item;
  }

  /**
   * Two items of the same batch with the same fingerprint are both appended:
   * the stored set is not updated inside the loop.
   */
  lemma InBatchDuplicatesKept(item: BoardItem, ids: set<string>, userMap: map<UserId, string>, lib: Library)
    requires IsNew(item, ids, lib) && item.date.Some?
    ensures NewRows([item, item], ids, userMap, lib) == Some([NewRow(item, userMap, lib).value, NewRow(item, userMap, lib).value])
  {
    var row := NewRow(item, userMap, lib).value;
    assert NewRow(item, userMap, lib) == Some(row);
    var none: seq<BoardItem> := [];
    assert NewRows(none, ids, userMap, lib) == Some([]);
    NewRowsSnoc(none, item, ids, userMap, lib);
    assert none + [item] == [item];
    assert [] + [row] == [row];
    assert NewRows([item], ids, userMap, lib) == Some([row]);
    NewRowsSnoc([item], item, ids, userMap, lib);
    assert [item] + [item] == [item, item];
    assert [row] + [row] == [row, row];
  }

  /**
   * Running the loop again over the same board, once the appended rows are
   * stored, appends nothing.
   */
  lemma {:induction false} RerunAddsNothing(board: seq<BoardItem>, ids: set<string>, userMap: map<UserId, string>, lib: Library)
    requires NewRows(board, ids, userMap, lib).Some?
    ensures HaveIds(NewRows(board, ids, userMap, lib).value)
    ensures NewRows(board, ids + IdsOf(NewRows(board, ids, userMap, lib).value), userMap, lib) == Some([])
  {
    var rows := NewRows(board, ids, userMap, lib).value;
    NewRowsHaveIds(board, ids, userMap, lib);
    var all := ids + IdsOf(rows);
    forall i | 0 <= i < |board| ensures !IsNew(board[i], all, lib) {
      if IsNew(board[i], ids, lib) {
        NewItemStored(board, ids, userMap, lib, i);
      }
    }
    NoNewItems(board, all, userMap, lib);
  }

  /** Every appended row carries its `id_hash`. */
  lemma NewRowsHaveIds(board: seq<BoardItem>, ids: set<string>, userMap: map<UserId, string>, lib: Library)
    requires NewRows(board, ids, userMap, lib).Some?
    ensures HaveIds(NewRows(board, ids, userMap, lib).value)
  {
    var rows := NewRows(board, ids, userMap, lib).value;
    NewRowsAreFreshItems(board, ids, userMap, lib);
    var newItems := FreshItems(board, ids, lib);
    assert HaveIds(rows) by {
      forall k | 0 <= k < |rows| ensures "id_hash" in rows[k] { assert Some(rows[k]) == NewRow(newItems[k], userMap, lib); }
    }
  }

  /** The fingerprint of every new item is among those of the appended rows. */
  lemma NewItemStored(board: seq<BoardItem>, ids: set<string>, userMap: map<UserId, string>, lib: Library, i: nat)
    requires NewRows(board, ids, userMap, lib).Some?
    requires i < |board| && IsNew(board[i], ids, lib)
    ensures HaveIds(NewRows(board, ids, userMap, lib).value)
    ensures Fingerprint(board[i], lib) in IdsOf(NewRows(board, ids, userMap, lib).value)
  {
    var rows := NewRows(board, ids, userMap, lib).value;
    NewRowsAreFreshItems(board, ids, userMap, lib);
    var newItems := FreshItems(board, ids, lib);
    NewRowsHaveIds(board, ids, userMap, lib);
    FilterContains(board, NewIn(ids, lib), i);
    var k :| 0 <= k < |newItems| && newItems[k] == board[i];
    assert Some(rows[k]) == NewRow(newItems[k], userMap, lib);
    assert rows[k]["id_hash"] == Fingerprint(board[i], lib);
  }

  /** A board none of whose items is new yields no rows. */
  lemma {:induction false} NoNewItems(board: seq<BoardItem>, ids: set<string>, userMap: map<UserId, string>, lib: Library)
    requires forall i :: 0 <= i < |board| ==> !IsNew(board[i], ids, lib)
    ensures NewRows(board, ids, userMap, lib) == Some([])
  {
    if board != [] {
      NoNewItems(board[..|board| - 1], ids, userMap, lib);
      assert !IsNew(board[|board| - 1], ids, lib);
    }
  }

  /** Once a prefix of the board aborts the loop, the whole board does. */
  lemma {:induction false} NewRowsAbortStays(board: seq<BoardItem>, ids: set<string>, userMap: map<UserId, string>, lib: Library, n: nat)
    requires n <= |board| && NewRows(board[..n], ids, userMap, lib).None?
    ensures NewRows(board, ids, userMap, lib).None?
  {
    if n < |board| {
      var init := board[..|board| - 1];
      assert init[..n] == board[..n];
      NewRowsAbortStays(init, ids, userMap, lib, n);
    } else {
      assert board[..n] == board;
    }
  }

  // ---------------------------------------------------------------------
  // The loop itself

  /** The dictionary the loop appends for a dated new item. */
  method StoreItem(item: BoardItem, idHash: string, contentHtml: string, authorName: string,
                   userMap: map<UserId, string>, lib: Library)
    returns (row: Row)
    requires item.date.Some? && idHash == Fingerprint(item, lib)
    requires contentHtml == ContentHtml(item) && authorName == AuthorName(item, userMap)
    ensures NewRow(item, userMap, lib) == Some(row)
  {
    var fecha := lib.madridTime(item.date.value);
    row := map[
      "id_hash" := idHash,
      "fecha" := fecha,
      "autor" := authorName,
      "titulo" := item.title.GetOr(Untitled),
      "contenido" := contentHtml,
      "categoria" := lib.categorize(item.title.GetOr(""))];
  }

  /**
   * The `for item in board_messages` loop: starting from the stored rows,
   * append the row of every item whose fingerprint is not in `ids` and count
   * them. `aborted` is the KeyError raised for a new item without a date.
   */
  method MergeNew(stored: seq<Row>, ids: set<string>, board: seq<BoardItem>, userMap: map<UserId, string>, lib: Library)
    returns (all: seq<Row>, count: nat, aborted: bool)
    ensures aborted <==> NewRows(board, ids, userMap, lib).None?
    ensures !aborted ==> all == stored + NewRows(board, ids, userMap, lib).value
    ensures !aborted ==> count == |NewRows(board, ids, userMap, lib).value| == |all| - |stored|
  {
    all, count, aborted := stored, 0, false;
    ghost var added: seq<Row> := [];
    var i := 0;
    assert board[..0] == [];
    while i < |board|
      invariant 0 <= i <= |board|
      invariant all == stored + added
      invariant NewRows(board[..i], ids, userMap, lib) == Some(added)
      invariant count == |added|
    {
      var item := board[i];
      assert board[..i + 1] == board[..i] + [item];
      NewRowsSnoc(board[..i], item, ids, userMap, lib);
      var contentHtml := item.content.GetOr("");
      var contentText := lib.getText(contentHtml);
      var uniqueString := DateText(item.date) + contentText;
      var idHash := lib.sha256(uniqueString);
      if idHash !in ids {
        count := count + 1;
        var authorName := AuthorName(item, userMap);
        if item.date.None? {
          assert NewRows(board[..i + 1], ids, userMap, lib).None?;
          NewRowsAbortStays(board, ids, userMap, lib, i + 1);
          return all, count, true;
        }
        var row := StoreItem(item, idHash, contentHtml, authorName, userMap, lib);
        all := all + [row];
        added := added + [row];
      }
      i := i + 1;
    }
    assert board[..i] == board;
  }

  // ---------------------------------------------------------------------
  // One run of the job

  /** What the run asks of Drive and of the board, in order. */
  datatype Effect =
    | Connect                                              // build the Drive service and the board client
    | FindFile(name: string)
    | Download(name: string)
    | FetchBoard
    | FetchUsers
    | Upload(name: string, rows: seq<Row>, replace: bool)  // replace: the file already existed

  /** How a run ends; every failure is caught at the top level and only printed. */
  datatype RunResult =
    | CredentialsMissing  // the ValueError of the credential check
    | Aborted             // a KeyError in the stored rows or on a new item, or a CSV writer's ValueError
    | NothingNew          // no new message: nothing is written
    | Written             // both files were uploaded

  function MessagesFile(season: string): string { "comunicados_" + season + ".csv" }
  function ParticipationFile(season: string): string { "participacion_" + season + ".csv" }

  const ParticipationFields: set<string> := {"autor", "comunicados", "datos", "cesiones", "cronicas"}

  /**
   * `csv.DictWriter(..., fieldnames=fields).writerows(rows)` succeeds: with
   * the default `extrasaction="raise"`, a row with a key outside the header
   * raises ValueError (missing keys are written as "").
   */
  predicate FitsHeader(rows: seq<Row>, fields: set<string>) {
    forall i :: 0 <= i < |rows| ==> rows[i].Keys <= fields
  }

  predicate NoUpload(log: seq<Effect>) {
    forall i :: 0 <= i < |log| ==> !log[i].Upload?
  }

  /** Every upload in `log` writes the file `name`. */
  predicate UploadsOnly(log: seq<Effect>, name: string) {
    forall i :: 0 <= i < |log| && log[i].Upload? ==> log[i].name == name
  }

  /**
   * The write-back once something new was appended: sort the messages,
   * write and upload them, then build, write and upload the participation
   * table. A row a writer rejects ends the run there; when it is a
   * participation row, the messages file has already been uploaded.
   */
  method WriteBack(season: string, messages: seq<Row>, replaceMessages: bool, participationFound: bool,
                   userMap: map<UserId, string>, lib: Library)
    returns (result: RunResult, writes: seq<Effect>)
    ensures var sorted := lib.sortMessages(messages);
      var table := lib.participation(sorted, userMap);
      if !FitsHeader(sorted, MessageFields) then result == Aborted && writes == []
      else if !FitsHeader(table, ParticipationFields) then
        result == Aborted && writes == [Upload(MessagesFile(season), sorted, replaceMessages), FindFile(ParticipationFile(season))]
      else
        result == Written && writes == [Upload(MessagesFile(season), sorted, replaceMessages), FindFile(ParticipationFile(season)),
          Upload(ParticipationFile(season), table, participationFound)]
    ensures result != Written ==> UploadsOnly(writes, MessagesFile(season))
  {
    var sorted := lib.sortMessages(messages);
    if !FitsHeader(sorted, MessageFields) {
      return Aborted, [];
    }
    writes := [Upload(MessagesFile(season), sorted, replaceMessages)];
    var participationData := lib.participation(sorted, userMap);
    var participationFile := ParticipationFile(season);
    writes := writes + [FindFile(participationFile)];
    if !FitsHeader(participationData, ParticipationFields) {
      return Aborted, writes;
    }
    writes := writes + [Upload(participationFile, participationData, participationFound)];
    result := Written;
  }

  /**
   * `main`. `stored` is the downloaded messages file (None when it is not on
   * Drive), `participationFound` whether the participation file is, `board`
   * and `userMap` what the board client returns.
   */
  method Run(email: Secret, password: Secret, folder: Secret, season: string,
             stored: Option<seq<Row>>, participationFound: bool,
             board: seq<BoardItem>, userMap: map<UserId, string>, lib: Library)
    returns (result: RunResult, log: seq<Effect>)
    // the credential check comes before any access to Drive or the board
    ensures !CredentialsOk(email, password, folder) <==> result == CredentialsMissing
    ensures result == CredentialsMissing ==> log == []
    ensures result != CredentialsMissing ==>
      |log| >= 2 && log[..2] == [Connect, FindFile(MessagesFile(season))]
    // the stored rows must all carry an id
    ensures result != CredentialsMissing && stored.Some? && !HaveIds(stored.value) ==>
      result == Aborted && log == [Connect, FindFile(MessagesFile(season)), Download(MessagesFile(season))]
    // otherwise the outcome is decided by the rows the loop appends and by the writers
    ensures result != CredentialsMissing && (stored.None? || HaveIds(stored.value)) ==>
      var rows := stored.GetOr([]);
      var ids := if stored.Some? then IdsOf(rows) else {};
      var head := [Connect, FindFile(MessagesFile(season))]
        + (if stored.Some? then [Download(MessagesFile(season))] else []) + [FetchBoard, FetchUsers];
      match NewRows(board, ids, userMap, lib)
      case None => result == Aborted && log == head
      case Some(added) =>
        if added == [] then result == NothingNew && log == head
        else
          var sorted := lib.sortMessages(rows + added);
          var table := lib.participation(sorted, userMap);
          if !FitsHeader(sorted, MessageFields) then result == Aborted && log == head
          else if !FitsHeader(table, ParticipationFields) then
            result == Aborted && log == head + [Upload(MessagesFile(season), sorted, stored.Some?), FindFile(ParticipationFile(season))]
          else
            result == Written && log == head + [Upload(MessagesFile(season), sorted, stored.Some?),
              FindFile(ParticipationFile(season)), Upload(ParticipationFile(season), table, participationFound)]
    // nothing is written unless something new was appended
    ensures result == CredentialsMissing || result == NothingNew ==> NoUpload(log)
    // the participation file is written only by a run that completes
    ensures result != Written ==> UploadsOnly(log, MessagesFile(season))
  {
    log := [];
    var emailValue, passwordValue, folderValue := Resolve(email), Resolve(password), Resolve(folder);
    if !(Truthy(emailValue) && Truthy(passwordValue) && Truthy(folderValue)) {
      return CredentialsMissing, log;
    }
    var messagesFile := MessagesFile(season);
    log := log + [Connect, FindFile(messagesFile)];
    var allMessages: seq<Row> := [];
    var existingIds: set<string> := {};
    if stored.Some? {
      log := log + [Download(messagesFile)];
      allMessages := stored.value;
      if !HaveIds(allMessages) {
        return Aborted, log;
      }
      existingIds := IdsOf(allMessages);
    }
    log := log + [FetchBoard, FetchUsers];
    assert NoUpload(log);
    assert allMessages == stored.GetOr([]);
    assert existingIds == if stored.Some? then IdsOf(allMessages) else {};
    ghost var head := log;
    assert head == [Connect, FindFile(messagesFile)]
      + (if stored.Some? then [Download(messagesFile)] else []) + [FetchBoard, FetchUsers];
    assert log[..2] == [Connect, FindFile(messagesFile)];
    var merged, count, aborted := MergeNew(allMessages, existingIds, board, userMap, lib);
    if aborted {
      return Aborted, log;
    }
    ghost var added := NewRows(board, existingIds, userMap, lib).value;
    assert merged == allMessages + added && count == |added|;
    if count > 0 {
      var writes;
      result, writes := WriteBack(season, merged, stored.Some?, participationFound, userMap, lib);
      log := log + writes;
      assert log[..2] == head[..2];
    } else {
      assert added == [];
      result := NothingNew;
    }
  }

  /**
   * With one stored message "a" and one board item that hashes to "a", the
   * run appends nothing and writes nothing.
   */
  lemma KnownMessageAddsNothing(stored: Row, item: BoardItem, userMap: map<UserId, string>, lib: Library)
    requires "id_hash" in stored && stored["id_hash"] == "a"
    requires Fingerprint(item, lib) == "a"
    ensures HaveIds([stored]) && NewRows([item], IdsOf([stored]), userMap, lib) == Some([])
  {
    assert [stored][0]["id_hash"] in IdsOf([stored]);
    assert [item][..0] == [] && [item][0] == item;
  }
}
