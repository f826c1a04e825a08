/** The church list cleaning pipeline (backend/clean_data.py,
    `clean_church_data`). A table is a list of column names and a list of rows
    of cells; a cell is `None` where the CSV reader produced a missing value. */
module CleanData {
  import opened Wrappers
  import opened Seqs
  import opened Strings

  type Cell = Option<string>
  type Row = seq<Cell>

  datatype Frame = Frame(columns: seq<string>, rows: seq<Row>)

  /** Every row has one cell per column, as in any pandas frame. */
  predicate Rectangular(f: Frame)
  {
    forall i :: 0 <= i < |f.rows| ==> |f.rows[i]| == |f.columns|
  }

  const CHATBOT := "Chatbot"
  const WEBSITE := "Website"
  const NO_WEBSITE := "NO_WEBSITE"

  /** Selecting columns that are absent fails with a `KeyError` naming them;
      a column that two columns share after stripping fails in the string
      accessor on the two-column selection. */
  datatype CleanError = MissingColumns(names: seq<string>) | AmbiguousColumn(name: string)

  // ----- cells -----

  /** The cell of column `c`; `None` past the end of the row. */
  function Get(r: Row, c: nat): Cell
  {
    if c < |r| then r[c] else None
  }

  /** The row with the cell of column `c` replaced. */
  function Put(r: Row, c: nat, v: Cell): (r': Row)
    ensures |r'| == |r|
    ensures c < |r| ==> Get(r', c) == v
    ensures c >= |r| ==> r' == r
    ensures forall d :: d != c ==> Get(r', d) == Get(r, d)
  {
    if c < |r| then r[c := v] else r
  }

  /** `astype(str)`: a missing value becomes the text "nan". */
  function Text(c: Cell): string
  {
    if c.Some? then c.value else "nan"
  }

  // ----- columns -----

  function Find(cols: seq<string>, name: string): (i: nat)
    requires name in cols
    ensures i < |cols| && cols[i] == name && name !in cols[..i]
  {
    if cols[0] == name then 0 else 1 + Find(cols[1..], name)
  }

  /** The position of the one column called `name`. */
  function ColumnIndex(cols: seq<string>, name: string): (r: Result<nat, CleanError>)
    ensures r.Success? <==> name in cols && forall i, j :: 0 <= i < j < |cols| && cols[i] == name ==> cols[j] != name
    ensures r.Success? ==> r.value < |cols| && cols[r.value] == name
    ensures r.Failure? && name !in cols ==> r.error == MissingColumns([name])
    ensures r.Failure? && name in cols ==> r.error == AmbiguousColumn(name)
  {
    if name !in cols then Failure(MissingColumns([name]))
    else
      var i := Find(cols, name);
      if name in cols[i + 1..] then
        var k :| 0 <= k < |cols[i + 1..]| && cols[i + 1..][k] == name;
        assert cols[i + 1 + k] == name;
        Failure(AmbiguousColumn(name))
      else
        assert forall j :: i < j < |cols| ==> cols[j] == cols[i + 1..][j - i - 1];
        assert forall j :: 0 <= j < i ==> cols[j] == cols[..i][j];
        Success(i)
  }

  // ----- the stages, in pipeline order -----

  predicate HasChatbot(r: Row, cb: nat)
  {
    Get(r, cb).Some?
  }

  predicate HasChatbotOrWebsite(r: Row, cb: nat, ws: nat)
  {
    Get(r, cb).Some? || Get(r, ws).Some?
  }

  predicate ChatbotIsNot(r: Row, cb: nat, v: string)
  {
    Get(r, cb) != Some(v)
  }

  /** Line 18: drops rows missing both the chatbot and the website. */
  function DropBothMissing(rows: seq<Row>, cb: nat, ws: nat): seq<Row>
  {
    Filter(rows, r => HasChatbotOrWebsite(r, cb, ws))
  }

  /** Line 21: drops rows missing the chatbot. */
  function DropMissingChatbot(rows: seq<Row>, cb: nat): seq<Row>
  {
    Filter(rows, r => HasChatbot(r, cb))
  }

  /** One cell as text, stripped. */
  function StripCell(r: Row, c: nat): Row
  {
    Put(r, c, Some(PyStrip(Text(Get(r, c)))))
  }

  /** Lines 24 and 31: a column as text, stripped. */
  function StripColumn(rows: seq<Row>, c: nat): seq<Row>
  {
    Map(rows, r => StripCell(r, c))
  }

  /** Lines 27-28: drops rows whose chatbot is '' or 'nan'. */
  function DropBlankChatbot(rows: seq<Row>, cb: nat): seq<Row>
  {
    Filter(Filter(rows, r => ChatbotIsNot(r, cb, "")), r => ChatbotIsNot(r, cb, "nan"))
  }

  /** Line 34: '' and 'nan' mean "no website". */
  function MarkMissing(site: string): (marked: string)
    ensures marked != "" && marked != "nan"
    ensures site == "" || site == "nan" ==> marked == NO_WEBSITE
    ensures site != "" && site != "nan" ==> marked == site
  {
    if site == "" || site == "nan" then NO_WEBSITE else site
  }

  function MarkCell(r: Row, ws: nat): Row
  {
    Put(r, ws, Some(MarkMissing(Text(Get(r, ws)))))
  }

  function MarkNoWebsite(rows: seq<Row>, ws: nat): seq<Row>
  {
    Map(rows, r => MarkCell(r, ws))
  }

  /** Line 37: keeps the first row for each chatbot value. */
  function DropDuplicateChatbots(rows: seq<Row>, cb: nat): seq<Row>
  {
    DedupeBy(rows, r => Get(r, cb))
  }

  /** Line 40: a non-empty handle gets exactly one leading '@'; the rest of
      it is kept. */
  function Handle(x: string): (h: string)
    ensures x != "" ==> |h| >= 1 && h[0] == '@' && (|h| > 1 ==> h[1] != '@')
    ensures x != "" ==> h[1..] == StripLeft(x, c => c == '@')
    ensures x == "" ==> h == x
  {
    if x != "" then "@" + StripLeft(x, c => c == '@') else x
  }

  function HandleCell(r: Row, cb: nat): Row
  {
    Put(r, cb, Some(Handle(Text(Get(r, cb)))))
  }

  function PrefixHandles(rows: seq<Row>, cb: nat): seq<Row>
  {
    Map(rows, r => HandleCell(r, cb))
  }

  /** Lines 43-48, `clean_website`. */
  function CleanWebsite(url: string): string
  {
    if url == NO_WEBSITE then url
    else if !HasProtocol(url) then "https://" + url
    else url
  }

  function WebsiteCell(r: Row, ws: nat): Row
  {
    Put(r, ws, Some(CleanWebsite(Text(Get(r, ws)))))
  }

  function CleanWebsites(rows: seq<Row>, ws: nat): seq<Row>
  {
    Map(rows, r => WebsiteCell(r, ws))
  }

  predicate LongHandle(r: Row, cb: nat)
  {
    |Text(Get(r, cb))| > 1
  }

  /** Line 53: keeps handles longer than one character. */
  function DropShortHandles(rows: seq<Row>, cb: nat): seq<Row>
  {
    Filter(rows, r => LongHandle(r, cb))
  }

  /** Lines 18-53 on the rows, given the chatbot and website columns. */
  function CleanRows(rows: seq<Row>, cb: nat, ws: nat): seq<Row>
  {
    var present := DropMissingChatbot(DropBothMissing(rows, cb, ws), cb);
    var named := DropBlankChatbot(StripColumn(present, cb), cb);
    var sites := MarkNoWebsite(StripColumn(named, ws), ws);
    var unique := DropDuplicateChatbots(sites, cb);
    DropShortHandles(CleanWebsites(PrefixHandles(unique, cb), ws), cb)
  }

  /** `clean_church_data` without the file reading and writing: the column
      names are stripped first; line 18 needs both columns to exist, line 24
      needs the chatbot column to be single and line 31 the website column. */
  function CleanChurchData(f: Frame): Result<Frame, CleanError>
  {
    var columns := Map(f.columns, PyStrip);
    var missing := Filter([CHATBOT, WEBSITE], (name: string) => name !in columns);
    if missing != [] then Failure(MissingColumns(missing))
    else
      var cb := ColumnIndex(columns, CHATBOT);
      var ws := ColumnIndex(columns, WEBSITE);
      if cb.Failure? then Failure(cb.error)
      else if ws.Failure? then Failure(ws.error)
      else Success(Frame(columns, CleanRows(f.rows, cb.value, ws.value)))
  }

  // ----- the pipeline as one selection followed by one transformation -----

  /** The chatbot after line 24. */
  function StrippedHandle(r: Row, cb: nat): string
  {
    PyStrip(Text(Get(r, cb)))
  }

  /** A row passes lines 18-28. */
  predicate Admissible(r: Row, cb: nat)
  {
    Get(r, cb).Some? && StrippedHandle(r, cb) != "" && StrippedHandle(r, cb) != "nan"
  }

  /** The de-duplication key of a row that passed lines 18-28. */
  function Key(r: Row, cb: nat): Cell
  {
    Some(StrippedHandle(r, cb))
  }

  predicate Kept(r: Row, cb: nat)
  {
    |Handle(StrippedHandle(r, cb))| > 1
  }

  function AdmissibleRows(rows: seq<Row>, cb: nat): seq<Row>
  {
    Filter(rows, r => Admissible(r, cb))
  }

  /** The input rows that reach the output: of the admissible rows, the first
      for each stripped chatbot value, if its handle is longer than one
      character. */
  function Selected(rows: seq<Row>, cb: nat): seq<Row>
  {
    Filter(DedupeBy(AdmissibleRows(rows, cb), r => Key(r, cb)), r => Kept(r, cb))
  }

  /** The output row made from a selected input row: the normalised handle
      and website, every other cell as it was. */
  function Transform(r: Row, cb: nat, ws: nat): Row
  {
    Put(Put(r, cb, Some(Handle(StrippedHandle(r, cb)))), ws,
        Some(CleanWebsite(MarkMissing(PyStrip(Text(Get(r, ws)))))))
  }

  /** Lines 18 and 21 together drop exactly what line 21 drops alone. */
  lemma DropBothRedundant(rows: seq<Row>, cb: nat, ws: nat)
    ensures DropMissingChatbot(DropBothMissing(rows, cb, ws), cb) == DropMissingChatbot(rows, cb)
  {
    FilterFilter(rows, r => HasChatbotOrWebsite(r, cb, ws), r => HasChatbot(r, cb), r => HasChatbot(r, cb));
  }

  /** Stripping the chatbot and then dropping blank ones is dropping the rows
      whose stripped chatbot would be blank, then stripping. */
  lemma StripThenDropBlank(present: seq<Row>, cb: nat)
    ensures DropBlankChatbot(StripColumn(present, cb), cb)
            == Map(Filter(Filter(present, r => ChatbotIsNot(StripCell(r, cb), cb, "")),
                          r => ChatbotIsNot(StripCell(r, cb), cb, "nan")),
                   r => StripCell(r, cb))
  {
    FilterMap(present, r => StripCell(r, cb), r => ChatbotIsNot(r, cb, ""),
              r => ChatbotIsNot(StripCell(r, cb), cb, ""));
    var nonEmpty := Filter(present, r => ChatbotIsNot(StripCell(r, cb), cb, ""));
    FilterMap(nonEmpty, r => StripCell(r, cb), r => ChatbotIsNot(r, cb, "nan"),
              r => ChatbotIsNot(StripCell(r, cb), cb, "nan"));
  }

  /** Stripping a present chatbot cell stores the stripped text. */
  lemma StrippedChatbot(r: Row, cb: nat)
    requires HasChatbot(r, cb)
    ensures Get(StripCell(r, cb), cb) == Key(r, cb)
  {
  }

  /** The three filters of lines 21, 27 and 28 are the one filter `Admissible`. */
  lemma ThreeFiltersAdmissible(rows: seq<Row>, cb: nat)
    ensures Filter(Filter(Filter(rows, r => HasChatbot(r, cb)),
                          r => ChatbotIsNot(StripCell(r, cb), cb, "")),
                   r => ChatbotIsNot(StripCell(r, cb), cb, "nan"))
            == AdmissibleRows(rows, cb)
  {
    var p := r => HasChatbot(r, cb);
    var e := r => ChatbotIsNot(StripCell(r, cb), cb, "");
    var n := r => ChatbotIsNot(StripCell(r, cb), cb, "nan");
    var pe := r => HasChatbot(r, cb) && ChatbotIsNot(StripCell(r, cb), cb, "");
    var a := r => Admissible(r, cb);
    FilterFilter(rows, p, e, pe);
    forall x | x in rows
      ensures a(x) == (pe(x) && n(x))
    {
      AdmissibleByStages(x, cb);
    }
    FilterFilter(rows, pe, n, a);
  }

  /** A row is admissible when it has a chatbot whose stripped cell is neither
      '' nor 'nan'. */
  lemma AdmissibleByStages(r: Row, cb: nat)
    ensures Admissible(r, cb) ==
      (HasChatbot(r, cb) && ChatbotIsNot(StripCell(r, cb), cb, "") && ChatbotIsNot(StripCell(r, cb), cb, "nan"))
  {
    if HasChatbot(r, cb) {
      StrippedChatbot(r, cb);
    }
  }

  /** Lines 18-28 keep exactly the admissible rows, with the chatbot stripped. */
  lemma NamedRows(rows: seq<Row>, cb: nat, ws: nat)
    ensures DropBlankChatbot(StripColumn(DropMissingChatbot(DropBothMissing(rows, cb, ws), cb), cb), cb)
            == Map(AdmissibleRows(rows, cb), r => StripCell(r, cb))
  {
    DropBothRedundant(rows, cb, ws);
    StripThenDropBlank(DropMissingChatbot(rows, cb), cb);
    ThreeFiltersAdmissible(rows, cb);
  }

  /** Rows with the same cells are equal. */
  lemma RowExt(a: Row, b: Row)
    requires |a| == |b|
    requires forall d :: Get(a, d) == Get(b, d)
    ensures a == b
  {
    forall i | 0 <= i < |a| ensures a[i] == b[i] {
      assert Get(a, i) == Get(b, i);
    }
  }

  /** Lines 24-34 on one admissible row. */
  function Sites(r: Row, cb: nat, ws: nat): Row
  {
    MarkCell(StripCell(StripCell(r, cb), ws), ws)
  }

  /** Lines 24-50 on one admissible row. */
  function Finished(r: Row, cb: nat, ws: nat): Row
  {
    WebsiteCell(HandleCell(Sites(r, cb, ws), cb), ws)
  }

  /** The de-duplication key of an admissible row after lines 24-34. */
  lemma AdmissibleRowKey(r: Row, cb: nat, ws: nat)
    requires Admissible(r, cb) && cb != ws
    ensures Get(Sites(r, cb, ws), cb) == Key(r, cb)
  {
  }

  /** The handle of an admissible row after lines 24-50. */
  lemma AdmissibleRowHandle(r: Row, cb: nat, ws: nat)
    requires Admissible(r, cb) && cb != ws
    ensures Get(Finished(r, cb, ws), cb) == Some(Handle(StrippedHandle(r, cb)))
  {
    AdmissibleRowKey(r, cb, ws);
  }

  lemma AdmissibleRowKept(r: Row, cb: nat, ws: nat)
    requires Admissible(r, cb) && cb != ws
    ensures LongHandle(Finished(r, cb, ws), cb) == Kept(r, cb)
  {
    AdmissibleRowHandle(r, cb, ws);
  }

  /** What lines 24-50 do to one admissible row. */
  lemma AdmissibleRow(r: Row, cb: nat, ws: nat)
    requires Admissible(r, cb) && cb != ws
    ensures Finished(r, cb, ws) == Transform(r, cb, ws)
  {
    var site := PyStrip(Text(Get(r, ws)));
    var s1 := StripCell(r, cb);
    var s2 := StripCell(s1, ws);
    var s3 := MarkCell(s2, ws);
    var s4 := HandleCell(s3, cb);
    var f := WebsiteCell(s4, ws);
    var t := Transform(r, cb, ws);
    assert f == Finished(r, cb, ws);
    AdmissibleRowHandle(r, cb, ws);
    forall d ensures Get(f, d) == Get(t, d) {
      if d == cb {
        assert Get(f, d) == Get(s4, d);
      } else if d == ws {
        if ws < |r| {
          assert Get(s1, ws) == Get(r, ws);
          assert Get(s2, ws) == Some(site);
          assert Get(s3, ws) == Some(MarkMissing(site));
          assert Get(s4, ws) == Get(s3, ws);
        }
      } else {
        assert Get(f, d) == Get(r, d);
      }
    }
    RowExt(f, t);
  }

  predicate AllAdmissible(rows: seq<Row>, cb: nat)
  {
    forall x :: x in rows ==> Admissible(x, cb)
  }

  /** Lines 31-34 after the chatbot strip: one map. */
  lemma SitesStage(a: seq<Row>, cb: nat, ws: nat)
    ensures MarkNoWebsite(StripColumn(Map(a, r => StripCell(r, cb)), ws), ws) == Map(a, r => Sites(r, cb, ws))
  {
    MapMap(a, r => StripCell(r, cb), r => StripCell(r, ws), r => StripCell(StripCell(r, cb), ws));
    MapMap(a, r => StripCell(StripCell(r, cb), ws), r => MarkCell(r, ws), r => Sites(r, cb, ws));
  }

  /** Line 37 on the mapped rows is de-duplication by `Key` before the map. */
  lemma DedupeStage(a: seq<Row>, cb: nat, ws: nat)
    requires AllAdmissible(a, cb) && cb != ws
    ensures DropDuplicateChatbots(Map(a, r => Sites(r, cb, ws)), cb)
            == Map(DedupeBy(a, r => Key(r, cb)), r => Sites(r, cb, ws))
  {
    DedupeMap(a, r => Sites(r, cb, ws), r => Get(r, cb), r => Get(Sites(r, cb, ws), cb), {});
    forall x | x in a ensures Get(Sites(x, cb, ws), cb) == Key(x, cb) {
      AdmissibleRowKey(x, cb, ws);
    }
    DedupeExt(a, r => Get(Sites(r, cb, ws), cb), r => Key(r, cb), {});
  }

  /** Lines 40-50 on the mapped rows: one map. */
  lemma HandleWebsiteStage(d: seq<Row>, cb: nat, ws: nat)
    ensures CleanWebsites(PrefixHandles(Map(d, r => Sites(r, cb, ws)), cb), ws) == Map(d, r => Finished(r, cb, ws))
  {
    MapMap(d, r => Sites(r, cb, ws), r => HandleCell(r, cb), r => HandleCell(Sites(r, cb, ws), cb));
    MapMap(d, r => HandleCell(Sites(r, cb, ws), cb), r => WebsiteCell(r, ws), r => Finished(r, cb, ws));
  }

  /** Line 53 after the maps: a filter by `Kept` before them. */
  lemma ShortHandleFilter(d: seq<Row>, cb: nat, ws: nat)
    requires AllAdmissible(d, cb) && cb != ws
    ensures DropShortHandles(Map(d, r => Finished(r, cb, ws)), cb)
            == Map(Filter(d, r => Kept(r, cb)), r => Finished(r, cb, ws))
  {
    forall x | x in d ensures Kept(x, cb) == LongHandle(Finished(x, cb, ws), cb) {
      AdmissibleRowKept(x, cb, ws);
    }
    FilterMap(d, r => Finished(r, cb, ws), r => LongHandle(r, cb), r => Kept(r, cb));
  }

  /** Line 53 after the maps: a filter by `Kept`, then `Transform`. */
  lemma ShortHandleStage(d: seq<Row>, cb: nat, ws: nat)
    requires AllAdmissible(d, cb) && cb != ws
    ensures DropShortHandles(Map(d, r => Finished(r, cb, ws)), cb)
            == Map(Filter(d, r => Kept(r, cb)), r => Transform(r, cb, ws))
  {
    ShortHandleFilter(d, cb, ws);
    var sel := Filter(d, r => Kept(r, cb));
    assert forall i :: 0 <= i < |sel| ==> sel[i] in d;
    KeptRowsTransform(sel, cb, ws);
  }

  lemma KeptRowsTransform(sel: seq<Row>, cb: nat, ws: nat)
    requires AllAdmissible(sel, cb) && cb != ws
    ensures Map(sel, r => Finished(r, cb, ws)) == Map(sel, r => Transform(r, cb, ws))
  {
    forall x | x in sel ensures Finished(x, cb, ws) == Transform(x, cb, ws) {
      AdmissibleRow(x, cb, ws);
    }
    MapExt(sel, r => Finished(r, cb, ws), r => Transform(r, cb, ws));
  }

  /** The pipeline selects rows of the input, in order, and transforms each
      selected row on its own. */
  lemma CleanRowsSelectThenTransform(rows: seq<Row>, cb: nat, ws: nat)
    requires cb != ws
    ensures CleanRows(rows, cb, ws) == Map(Selected(rows, cb), r => Transform(r, cb, ws))
  {
    var a := AdmissibleRows(rows, cb);
    NamedRows(rows, cb, ws);
    SitesStage(a, cb, ws);
    DedupeStage(a, cb, ws);
    var d := DedupeBy(a, r => Key(r, cb));
    assert forall i :: 0 <= i < |d| ==> d[i] in a;
    HandleWebsiteStage(d, cb, ws);
    ShortHandleStage(d, cb, ws);
  }

  // ----- what the output satisfies -----

  /** The selected rows are input rows, in input order. */
  lemma SelectedIsSubsequence(rows: seq<Row>, cb: nat)
    ensures IsSubsequence(Selected(rows, cb), rows)
  {
    var a := AdmissibleRows(rows, cb);
    var d := DedupeBy(a, r => Key(r, cb));
    FilterIsSubsequence(rows, r => Admissible(r, cb));
    DedupeIsSubsequence(a, r => Key(r, cb), {});
    FilterIsSubsequence(d, r => Kept(r, cb));
    SubsequenceTrans(Selected(rows, cb), d, a);
    SubsequenceTrans(Selected(rows, cb), a, rows);
  }

  /** The selected rows are admissible and keep their handles. */
  lemma SelectedRows(rows: seq<Row>, cb: nat)
    ensures forall i :: 0 <= i < |Selected(rows, cb)| ==>
              Admissible(Selected(rows, cb)[i], cb) && Kept(Selected(rows, cb)[i], cb)
  {
    var a := AdmissibleRows(rows, cb);
    var d := DedupeBy(a, r => Key(r, cb));
    var sel := Selected(rows, cb);
    forall i | 0 <= i < |sel| ensures Admissible(sel[i], cb) && Kept(sel[i], cb) {
      assert sel[i] in d;
      var j :| 0 <= j < |d| && d[j] == sel[i];
      assert d[j] in a;
    }
  }

  /** `clean_website` leaves "NO_WEBSITE" and any URL with a protocol alone,
      and gives every other URL the "https://" prefix. */
  lemma CleanWebsiteSpec(url: string)
    ensures CleanWebsite(url) == NO_WEBSITE || HasProtocol(CleanWebsite(url))
    ensures url == NO_WEBSITE || HasProtocol(url) ==> CleanWebsite(url) == url
    ensures url != NO_WEBSITE && !HasProtocol(url) ==> CleanWebsite(url) == "https://" + url
    ensures CleanWebsite(CleanWebsite(url)) == CleanWebsite(url)
  {
    var https := "https://";
    if url != NO_WEBSITE && !HasProtocol(url) {
      assert (https + url)[..|https|] == https;
      assert StartsWith(https + url, https);
    }
  }

  /** Every output row has a handle of one '@' followed by at least one
      character that is not '@', and a website that is "NO_WEBSITE" or starts
      with "http://" or "https://". */
  lemma CleanRowsShape(rows: seq<Row>, cb: nat, ws: nat)
    requires cb != ws
    requires forall i :: 0 <= i < |rows| ==> cb < |rows[i]| && ws < |rows[i]|
    ensures forall i :: 0 <= i < |CleanRows(rows, cb, ws)| ==> OutputShape(CleanRows(rows, cb, ws)[i], cb, ws)
  {
    CleanRowsSelectThenTransform(rows, cb, ws);
    SelectedShape(rows, cb, ws);
  }

  lemma SelectedShape(rows: seq<Row>, cb: nat, ws: nat)
    requires cb != ws
    requires forall i :: 0 <= i < |rows| ==> cb < |rows[i]| && ws < |rows[i]|
    ensures forall i :: 0 <= i < |Selected(rows, cb)| ==> OutputShape(Transform(Selected(rows, cb)[i], cb, ws), cb, ws)
  {
    SelectedRows(rows, cb);
    SelectedWide(rows, cb, ws);
    TransformsShape(Selected(rows, cb), cb, ws);
  }

  lemma SelectedWide(rows: seq<Row>, cb: nat, ws: nat)
    requires forall i :: 0 <= i < |rows| ==> ws < |rows[i]|
    ensures forall i :: 0 <= i < |Selected(rows, cb)| ==> ws < |Selected(rows, cb)[i]|
  {
    SelectedIsSubsequence(rows, cb);
    SubsequenceAll(Selected(rows, cb), rows, (r: Row) => ws < |r|);
  }

  lemma TransformsShape(sel: seq<Row>, cb: nat, ws: nat)
    requires cb != ws
    requires forall i :: 0 <= i < |sel| ==> Admissible(sel[i], cb) && Kept(sel[i], cb) && ws < |sel[i]|
    ensures forall i :: 0 <= i < |sel| ==> OutputShape(Transform(sel[i], cb, ws), cb, ws)
  {
    forall i | 0 <= i < |sel|
      ensures OutputShape(Transform(sel[i], cb, ws), cb, ws)
    {
      TransformShape(sel[i], cb, ws);
    }
  }

  predicate OutputShape(out: Row, cb: nat, ws: nat)
  {
    Get(out, cb).Some? && |Get(out, cb).value| > 1
    && Get(out, cb).value[0] == '@' && Get(out, cb).value[1] != '@'
    && Get(out, ws).Some? && (Get(out, ws).value == NO_WEBSITE || HasProtocol(Get(out, ws).value))
  }

  lemma TransformShape(r: Row, cb: nat, ws: nat)
    requires Admissible(r, cb) && Kept(r, cb) && cb != ws && ws < |r|
    ensures OutputShape(Transform(r, cb, ws), cb, ws)
  {
    CleanWebsiteSpec(MarkMissing(PyStrip(Text(Get(r, ws)))));
  }

  /** De-duplication compares the stripped chatbot values, before the '@'
      prefix: no two selected rows share one. */
  lemma SelectedDistinct(rows: seq<Row>, cb: nat)
    ensures DistinctKeys(Selected(rows, cb), r => Key(r, cb))
  {
    DedupeDistinct(AdmissibleRows(rows, cb), r => Key(r, cb), {});
    FilterDistinctKeys(DedupeBy(AdmissibleRows(rows, cb), r => Key(r, cb)), r => Kept(r, cb), r => Key(r, cb));
  }

  /** Of the admissible rows, the first with each stripped chatbot value is
      selected when its handle is long enough. */
  lemma SelectedKeepsFirst(rows: seq<Row>, cb: nat, i: nat)
    requires i < |rows| && Admissible(rows[i], cb) && Kept(rows[i], cb)
    requires forall j :: 0 <= j < i && Admissible(rows[j], cb) ==> Key(rows[j], cb) != Key(rows[i], cb)
    ensures rows[i] in Selected(rows, cb)
  {
    FilterDedupeKeepsFirst(rows, r => Admissible(r, cb), r => Key(r, cb), r => Kept(r, cb), i);
  }

  /** Cleaning a frame fails exactly when, after stripping the column names,
      "Chatbot" or "Website" is not the name of exactly one column. */
  lemma CleanChurchDataFails(f: Frame)
    ensures var columns := Map(f.columns, PyStrip);
            CleanChurchData(f).Success? <==> ColumnIndex(columns, CHATBOT).Success? && ColumnIndex(columns, WEBSITE).Success?
  {
    MissingNames(Map(f.columns, PyStrip));
  }

  /** The columns line 18 finds missing, in the order it names them. */
  lemma MissingNames(columns: seq<string>)
    ensures Filter([CHATBOT, WEBSITE], (name: string) => name !in columns) ==
              (if CHATBOT in columns then [] else [CHATBOT]) + (if WEBSITE in columns then [] else [WEBSITE])
  {
    var p := (name: string) => name !in columns;
    assert [CHATBOT, WEBSITE][1..] == [WEBSITE] && [WEBSITE][1..] == [];
    assert Filter([WEBSITE], p) == (if WEBSITE in columns then [] else [WEBSITE]);
  }

  /** The error names every missing column, Chatbot before Website; only
      when both exist is an ambiguous column reported, Chatbot first. */
  lemma CleanChurchDataError(f: Frame)
    ensures var columns := Map(f.columns, PyStrip);
            var missing := (if CHATBOT in columns then [] else [CHATBOT]) + (if WEBSITE in columns then [] else [WEBSITE]);
            && (missing != [] ==> CleanChurchData(f) == Failure(MissingColumns(missing)))
            && (missing == [] && ColumnIndex(columns, CHATBOT).Failure? ==>
                  CleanChurchData(f) == Failure(AmbiguousColumn(CHATBOT)))
            && (missing == [] && ColumnIndex(columns, CHATBOT).Success? && ColumnIndex(columns, WEBSITE).Failure? ==>
                  CleanChurchData(f) == Failure(AmbiguousColumn(WEBSITE)))
  {
    MissingNames(Map(f.columns, PyStrip));
  }

  /** A table with two "Chatbot" columns after stripping and no "Website"
      column fails on the missing website first. */
  lemma MissingBeforeAmbiguous()
    ensures CleanChurchData(Frame(["Chatbot", " Chatbot"], [])) == Failure(MissingColumns([WEBSITE]))
  {
    var f := Frame(["Chatbot", " Chatbot"], []);
    StripFixed("Chatbot", IsPySpace);
    assert PyStrip(" Chatbot") == "Chatbot" by {
      assert " Chatbot"[1..] == "Chatbot";
    }
    var columns := Map(f.columns, PyStrip);
    assert columns == ["Chatbot", "Chatbot"];
    assert CHATBOT in columns && WEBSITE !in columns;
    var none: seq<string> := [];
    assert none + [WEBSITE] == [WEBSITE];
    CleanChurchDataError(f);
  }

  /** On success the column names are stripped; the output rows are the
      selected input rows, transformed, as wide as the input and of the
      normalised shape. */
  lemma CleanChurchDataSpec(f: Frame)
    requires Rectangular(f)
    ensures CleanChurchData(f).Success? ==>
              var out := CleanChurchData(f).value;
              var cb := ColumnIndex(Map(f.columns, PyStrip), CHATBOT).value;
              var ws := ColumnIndex(Map(f.columns, PyStrip), WEBSITE).value;
              out.columns == Map(f.columns, PyStrip) && Rectangular(out)
              && out.rows == Map(Selected(f.rows, cb), r => Transform(r, cb, ws))
              && forall i :: 0 <= i < |out.rows| ==> OutputShape(out.rows[i], cb, ws)
  {
    var columns := Map(f.columns, PyStrip);
    var cb := ColumnIndex(columns, CHATBOT);
    var ws := ColumnIndex(columns, WEBSITE);
    if cb.Success? && ws.Success? {
      assert cb.value != ws.value;
      CleanRowsSelectThenTransform(f.rows, cb.value, ws.value);
      CleanRowsShape(f.rows, cb.value, ws.value);
      SelectedWidth(f.rows, cb.value, ws.value, |columns|);
    }
  }

  lemma SelectedWidth(rows: seq<Row>, cb: nat, ws: nat, n: nat)
    requires forall i :: 0 <= i < |rows| ==> |rows[i]| == n
    ensures forall i :: 0 <= i < |Selected(rows, cb)| ==> |Transform(Selected(rows, cb)[i], cb, ws)| == n
  {
    SelectedIsSubsequence(rows, cb);
    SubsequenceAll(Selected(rows, cb), rows, (r: Row) => |r| == n);
  }

  /** De-duplication runs before the '@' prefix: a handle `h` and "@" + `h`
      are different chatbot values there, and both rows come out with the
      handle "@" + `h`. */
  lemma AtVariantsBothSurvive(h: string, w1: Cell, w2: Cell)
    requires h != "" && h != "nan" && h[0] != '@'
    requires !IsPySpace(h[0]) && !IsPySpace(h[|h| - 1])
    ensures var out := CleanRows([[Some(h), w1], [Some("@" + h), w2]], 0, 1);
            |out| == 2 && Get(out[0], 0) == Some("@" + h) && Get(out[1], 0) == Some("@" + h)
  {
    var r1: Row := [Some(h), w1];
    var r2: Row := [Some("@" + h), w2];
    ExampleRows(h, r1, r2);
    ExampleStrip(h);
    ExampleHandle(h);
    ExampleSelected(r1, r2);
    CleanRowsSelectThenTransform([r1, r2], 0, 1);
    TransformHandle(r1, 0, 1);
    TransformHandle(r2, 0, 1);
  }

  /** The handle cell of a transformed row. */
  lemma TransformHandle(r: Row, cb: nat, ws: nat)
    requires cb < |r| && cb != ws
    ensures Get(Transform(r, cb, ws), cb) == Some(Handle(StrippedHandle(r, cb)))
  {
  }

  lemma ExampleRows(h: string, r1: Row, r2: Row)
    requires h != "" && h != "nan" && h[0] != '@'
    requires !IsPySpace(h[0]) && !IsPySpace(h[|h| - 1])
    requires |r1| == 2 && r1[0] == Some(h) && |r2| == 2 && r2[0] == Some("@" + h)
    ensures Admissible(r1, 0) && Admissible(r2, 0) && Kept(r1, 0) && Kept(r2, 0)
    ensures Key(r1, 0) != Key(r2, 0)
  {
    ExampleStrip(h);
    ExampleHandle(h);
    assert StrippedHandle(r1, 0) == h && StrippedHandle(r2, 0) == "@" + h;
    assert |"@" + h| != |h|;
  }

  lemma ExampleStrip(h: string)
    requires h != "" && !IsPySpace(h[0]) && !IsPySpace(h[|h| - 1])
    ensures PyStrip(h) == h && PyStrip("@" + h) == "@" + h
  {
    StripFixed(h, IsPySpace);
    StripFixed("@" + h, IsPySpace);
  }

  lemma ExampleHandle(h: string)
    requires h != "" && h[0] != '@'
    ensures Handle(h) == "@" + h && Handle("@" + h) == "@" + h
  {
    assert ("@" + h)[1..] == h;
  }

  lemma ExampleSelected(r1: Row, r2: Row)
    requires Admissible(r1, 0) && Admissible(r2, 0) && Kept(r1, 0) && Kept(r2, 0)
    requires Key(r1, 0) != Key(r2, 0)
    ensures Selected([r1, r2], 0) == [r1, r2]
  {
    FilterDedupeTwo(r1, r2, r => Admissible(r, 0), r => Key(r, 0), r => Kept(r, 0));
  }
}
