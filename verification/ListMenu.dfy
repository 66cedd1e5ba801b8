/** How SendList in cmd/api/handlers.go turns request items into list sections. */
module ListMenu {
  import opened Common
  import opened Text

  /** A request item; the row id may come under any of four spellings. */
  datatype Item = Item(title: string, description: string, rowId: string, rowID: string, rowid: string, rowid2: string)

  datatype RequestSection = RequestSection(title: string, rows: seq<Item>)

  datatype Row = Row(rowID: string, title: string, description: Option<string>)
  datatype Section = Section(title: Option<string>, rows: seq<Row>)

  function NonBlank(s: string): Option<string> {
    if TrimSpace(s) == "" then None else Some(TrimSpace(s))
  }

  /** resolveRowID: the first id that is not blank, else the title. */
  function ResolveRowID(item: Item): string {
    if NonBlank(item.rowId).Some? then TrimSpace(item.rowId)
    else if NonBlank(item.rowID).Some? then TrimSpace(item.rowID)
    else if NonBlank(item.rowid).Some? then TrimSpace(item.rowid)
    else if NonBlank(item.rowid2).Some? then TrimSpace(item.rowid2)
    else TrimSpace(item.title)
  }

  predicate Usable(item: Item) {
    TrimSpace(item.title) != ""
  }

  function RowOf(item: Item): Row {
    Row(ResolveRowID(item), TrimSpace(item.title), NonBlank(item.description))
  }

  /** The usable items, in order. */
  function UsableItems(items: seq<Item>): seq<Item> {
    if items == [] then []
    else
      var n := |items| - 1;
      if Usable(items[n]) then UsableItems(items[..n]) + [items[n]] else UsableItems(items[..n])
  }

  function Rows(items: seq<Item>): seq<Row> {
    var us := UsableItems(items);
    seq(|us|, i requires 0 <= i < |us| => RowOf(us[i]))
  }

  lemma RowsSnoc(items: seq<Item>, item: Item)
    ensures Rows(items + [item]) == if Usable(item) then Rows(items) + [RowOf(item)] else Rows(items)
  {
    assert (items + [item])[..|items|] == items;
  }

  /** The four spellings of the row id, in the order in which they are looked at. */
  function Spellings(item: Item): seq<string> {
    [item.rowId, item.rowID, item.rowid, item.rowid2]
  }

  /** The row id is the first spelling that is not blank, trimmed, and the trimmed title when all are blank. */
  lemma RowIdIsFirst(item: Item, k: nat)
    requires k <= 4 && forall j :: 0 <= j < k ==> TrimSpace(Spellings(item)[j]) == ""
    requires k < 4 ==> TrimSpace(Spellings(item)[k]) != ""
    ensures ResolveRowID(item) == TrimSpace(if k < 4 then Spellings(item)[k] else item.title)
  {
    var ids := Spellings(item);
    assert ids[0] == item.rowId && ids[1] == item.rowID && ids[2] == item.rowid && ids[3] == item.rowid2;
    assert k > 0 ==> TrimSpace(ids[0]) == "";
    assert k > 1 ==> TrimSpace(ids[1]) == "";
    assert k > 2 ==> TrimSpace(ids[2]) == "";
    assert k > 3 ==> TrimSpace(ids[3]) == "";
  }

  lemma RowIdIsNotBlank(item: Item)
    requires Usable(item)
    ensures ResolveRowID(item) != ""
  {
  }

  /** The row loop, which the two modes repeat. */
  method BuildRows(items: seq<Item>) returns (rows: seq<Row>)
    ensures rows == Rows(items)
  {
    rows := [];
    for i := 0 to |items|
      invariant rows == Rows(items[..i])
    {
      var item := items[i];
      assert items[..i + 1] == items[..i] + [item];
      RowsSnoc(items[..i], item);
      var rowTitle := TrimSpace(item.title);
      if rowTitle == "" {
        continue;
      }
      var rowID := ResolveRowID(item);
      RowIdIsNotBlank(item);
      if rowID == "" {
        rowID := rowTitle;
      }
      rows := rows + [Row(rowID, rowTitle, NonBlank(item.description))];
    }
    assert items[..|items|] == items;
  }

  function SectionOf(sec: RequestSection): seq<Section> {
    if Rows(sec.rows) == [] then [] else [Section(NonBlank(sec.title), Rows(sec.rows))]
  }

  function FromSections(secs: seq<RequestSection>): seq<Section> {
    if secs == [] then []
    else FromSections(secs[..|secs| - 1]) + SectionOf(secs[|secs| - 1])
  }

  function FromFlatList(topText: string, items: seq<Item>): seq<Section> {
    if Rows(items) == [] then []
    else [Section(Some(if TrimSpace(topText) == "" then "Menu" else TrimSpace(topText)), Rows(items))]
  }

  /** Section building as in SendList: sections if there are any, else the flat list. */
  method BuildSections(secs: seq<RequestSection>, topText: string, list: seq<Item>) returns (out: seq<Section>)
    ensures out == if secs != [] then FromSections(secs) else FromFlatList(topText, list)
  {
    out := [];
    if |secs| > 0 {
      for i := 0 to |secs|
        invariant out == FromSections(secs[..i])
      {
        assert secs[..i + 1][..i] == secs[..i];
        var rows := BuildRows(secs[i].rows);
        if |rows| == 0 {
          continue;
        }
        out := out + [Section(NonBlank(secs[i].title), rows)];
      }
      assert secs[..|secs|] == secs;
    } else {
      var sectionTitle := TrimSpace(topText);
      if sectionTitle == "" {
        sectionTitle := "Menu";
      }
      var rows := BuildRows(list);
      if |rows| > 0 {
        out := out + [Section(Some(sectionTitle), rows)];
      }
    }
  }

  /** Sections are built one by one, in order, so SectionIs says what comes out. */
  lemma {:induction false} SectionsSplit(a: seq<RequestSection>, b: seq<RequestSection>)
    ensures FromSections(a + b) == FromSections(a) + FromSections(b)
    decreases |b|
  {
    if b == [] {
      assert a + b == a;
    } else {
      var n := |b| - 1;
      assert (a + b)[..|a + b| - 1] == a + b[..n];
      SectionsSplit(a, b[..n]);
    }
  }

  /** A section without usable rows is dropped; a blank title is left out, any other trimmed. */
  lemma SectionIs(sec: RequestSection)
    ensures FromSections([sec]) ==
            if forall item <- sec.rows :: TrimSpace(item.title) == "" then []
            else [Section(if TrimSpace(sec.title) == "" then None else Some(TrimSpace(sec.title)), Rows(sec.rows))]
  {
    assert [sec][..0] == [];
    UsableIffSome(sec.rows);
  }

  lemma {:induction false} UsableIffSome(items: seq<Item>)
    ensures UsableItems(items) == [] <==> forall item <- items :: TrimSpace(item.title) == ""
    decreases |items|
  {
    if items != [] {
      var n := |items| - 1;
      UsableIffSome(items[..n]);
      assert items == items[..n] + [items[n]];
    }
  }

  /** The flat mode is the section mode applied to one section titled TopText, or "Menu" when that is blank. */
  lemma FlatIsOneSection(topText: string, list: seq<Item>)
    ensures FromFlatList(topText, list) ==
            FromSections([RequestSection(if TrimSpace(topText) == "" then "Menu" else topText, list)])
  {
    var title := if TrimSpace(topText) == "" then "Menu" else topText;
    var secs := [RequestSection(title, list)];
    assert secs[..0] == [];
    assert TrimSpace("Menu") == "Menu";
    assert FromSections(secs) == [] + SectionOf(secs[0]);
  }

  /** `from` lists, in increasing order, the positions of all usable items. */
  ghost predicate Positions(items: seq<Item>, from: seq<nat>) {
    && (forall k :: 0 <= k < |from| ==> from[k] < |items| && Usable(items[from[k]]))
    && (forall j, k :: 0 <= j < k < |from| ==> from[j] < from[k])
    && (forall i :: 0 <= i < |items| && Usable(items[i]) ==> i in from)
  }

  lemma PositionsSnoc(items: seq<Item>, from: seq<nat>, item: Item)
    requires Positions(items, from)
    ensures Positions(items + [item], if Usable(item) then from + [|items|] else from)
  {
    var from' := if Usable(item) then from + [|items|] else from;
    var items' := items + [item];
    forall i | 0 <= i < |items'| && Usable(items'[i])
      ensures i in from'
    {
      if i < |items| {
        assert items[i] == items'[i] && i in from;
      } else {
        assert from'[|from|] == i;
      }
    }
  }

  /** The items at the given positions. */
  function Pick(items: seq<Item>, from: seq<nat>): seq<Item>
    requires forall k :: 0 <= k < |from| ==> from[k] < |items|
  {
    seq(|from|, k requires 0 <= k < |from| => items[from[k]])
  }

  lemma PickSnoc(items: seq<Item>, from: seq<nat>, item: Item)
    requires forall k :: 0 <= k < |from| ==> from[k] < |items|
    ensures Pick(items + [item], from) == Pick(items, from)
    ensures Pick(items + [item], from + [|items|]) == Pick(items, from) + [item]
  {
  }

  lemma {:induction false} UsablePositions(items: seq<Item>) returns (from: seq<nat>)
    ensures Positions(items, from) && UsableItems(items) == Pick(items, from)
    decreases |items|
  {
    if items == [] {
      return [];
    }
    var front, item := items[..|items| - 1], items[|items| - 1];
    assert items == front + [item];
    var before := UsablePositions(front);
    PositionsSnoc(front, before, item);
    PickSnoc(front, before, item);
    from := if Usable(item) then before + [|front|] else before;
  }

  /** Rows keep input order and are exactly the items with a non-blank title; no row has a blank id or title. */
  lemma RowsAreUsableItems(items: seq<Item>) returns (from: seq<nat>)
    ensures Positions(items, from) && |from| == |Rows(items)|
    ensures forall k :: 0 <= k < |from| ==>
              && Rows(items)[k] == RowOf(items[from[k]])
              && Rows(items)[k].rowID == ResolveRowID(items[from[k]]) != ""
              && Rows(items)[k].title == TrimSpace(items[from[k]].title) != ""
              && Rows(items)[k].description ==
                 if TrimSpace(items[from[k]].description) == "" then None else Some(TrimSpace(items[from[k]].description))
  {
    from := UsablePositions(items);
  }
}
