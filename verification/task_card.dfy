/** The collapsible task card: its synced state and the callbacks that
    change it.

    Each `useSyncedState` value is a field of `Card`, the `useSyncedMap`
    named "rows" is the field `rows`, and each callback wired into the
    layout (clicks, text edits, property-menu selections, the one-shot
    initialisation effect) is a method that updates those fields in place. */
module TaskCard {
  import opened Wrappers
  import opened RowIds
  import opened CellKeys
  import opened RowStore

  /** The card colours the property menu offers. */
  const Colors: seq<string> := ["#FFA198", "#BDE3FF", "#AFF4C6", "#FFE8A3"]

  /** The default rows and their header labels. */
  const InitialRows: seq<InitialRow> := [
    InitialRow("date", "기간"),
    InitialRow("status", "현재 상태"),
    InitialRow("problem", "발생한 문제")
  ]

  /** The default value of the row-key list: the keys of the default rows
      (`initialRows.map((header) => header.rowKey)`). */
  const DefaultRowKeys: seq<string> := ["date", "status", "problem"]

  /** Property names the menu handler reacts to (the first one is spelled
      as the widget spells it). */
  const ToggleCollapsedProperty: string := "toggle-collpased"
  const ColorProperty: string := "color"

  /** The three independent status check boxes. */
  datatype StatusFlag = OnProgress | Trouble | Done

  /** The scalar synced fields of a card, as one value. */
  datatype CardFields = CardFields(
    initialized: bool,
    collapsed: bool,
    author: string,
    manager: string,
    mainContentText: string,
    onProgress: bool,
    trouble: bool,
    done: bool,
    color: string)

  /** The default value of every scalar synced field. */
  const DefaultFields: CardFields :=
    CardFields(false, false, "", "", "", false, false, false, Colors[1])

  /** The value of one status flag. */
  function Status(f: CardFields, flag: StatusFlag): bool {
    match flag
    case OnProgress => f.onProgress
    case Trouble => f.trouble
    case Done => f.done
  }

  /** `status.setState(!status.state)` on the scalar fields. */
  function Flip(f: CardFields, flag: StatusFlag): (r: CardFields)
    ensures Status(r, flag) == !Status(f, flag)
    ensures forall other :: other != flag ==> Status(r, other) == Status(f, other)
  {
    match flag
    case OnProgress => f.(onProgress := !f.onProgress)
    case Trouble => f.(trouble := !f.trouble)
    case Done => f.(done := !f.done)
  }

  /** Flipping the same flag twice restores every field. */
  lemma FlipTwice(f: CardFields, flag: StatusFlag)
    ensures Flip(Flip(f, flag), flag) == f
  {
  }

  /** The initialiser's table names three distinct rows, and the keys it
      labels are exactly the default row keys, in order. */
  lemma InitialRowsDistinct()
    ensures DistinctRows(InitialRows)
    ensures |DefaultRowKeys| == |InitialRows|
    ensures forall i :: 0 <= i < |InitialRows| ==> DefaultRowKeys[i] == InitialRows[i].rowKey
  {
  }

  /** A drawn key is never one of the default row keys: those are not six
      decimal digits. */
  lemma DrawNeverDefault(n: Draw)
    ensures PadKey(n) !in DefaultRowKeys
  {
    NumericKeyNeverDefault(PadKey(n));
  }

  /** No six-digit key is a default row key. */
  lemma NumericKeyNeverDefault(k: string)
    requires IsNumericKey(k)
    ensures k !in DefaultRowKeys
  {
    assert IsDigit(k[0]) && !IsDigit("status"[0]);
  }

  class Card {
    var initialized: bool
    var collapsed: bool
    var author: string
    var manager: string
    var mainContentText: string
    var onProgress: bool
    var trouble: bool
    var done: bool
    var rowKeys: seq<string>
    var color: string
    var rows: map<string, string>

    /** No row is listed twice. */
    ghost predicate Valid()
      reads this
    {
      NoDuplicates(rowKeys)
    }

    /** Every entry of the text map belongs to a listed row. */
    ghost predicate Tidy()
      reads this
    {
      Owned(rowKeys, rows)
    }

    function Fields(): CardFields
      reads this
    {
      CardFields(initialized, collapsed, author, manager, mainContentText,
                 onProgress, trouble, done, color)
    }

    /** The header text a row shows: `rows.get(headerKey) ?? ""`. */
    function HeaderText(rowKey: string): string
      reads this
    {
      Read(rows, HeaderKey(rowKey))
    }

    /** The body text a row shows: `rows.get(bodyKey) ?? ""`. */
    function BodyText(rowKey: string): string
      reads this
    {
      Read(rows, BodyKey(rowKey))
    }

    /** A new card: every synced value at its default. */
    constructor ()
      ensures Valid() && Tidy()
      ensures Fields() == DefaultFields
      ensures rowKeys == DefaultRowKeys && rows == map[]
    {
      initialized, collapsed := false, false;
      author, manager, mainContentText := "", "", "";
      onProgress, trouble, done := false, false, false;
      rowKeys := DefaultRowKeys;
      color := Colors[1];
      rows := map[];
    }

    /** The one-shot effect: on its first run, mark the card initialised and
        write each default row's header label; afterwards, do nothing. */
    method Initialise()
      modifies this
      ensures initialized
      ensures old(initialized) ==>
        Fields() == old(Fields()) && rowKeys == old(rowKeys) && rows == old(rows)
      ensures !old(initialized) ==>
        Fields() == old(Fields()).(initialized := true) && rowKeys == old(rowKeys) &&
        rows == SetHeaders(old(rows), InitialRows)
      ensures !old(initialized) ==>
        forall i :: 0 <= i < |InitialRows| ==> HeaderText(InitialRows[i].rowKey) == InitialRows[i].headerText
      ensures forall r :: BodyText(r) == old(BodyText(r))
      ensures old(Valid()) ==> Valid()
      ensures old(Tidy()) && (forall r :: r in DefaultRowKeys ==> r in rowKeys) ==> Tidy()
    {
      if initialized {
        return;
      }
      initialized := true;
      for i := 0 to |InitialRows|
        invariant SetHeaders(rows, InitialRows[i..]) == SetHeaders(old(rows), InitialRows)
        invariant Fields() == old(Fields()).(initialized := true) && rowKeys == old(rowKeys)
      {
        rows := rows[HeaderKey(InitialRows[i].rowKey) := InitialRows[i].headerText];
      }
      InitialRowsDistinct();
      forall i | 0 <= i < |InitialRows|
        ensures HeaderText(InitialRows[i].rowKey) == InitialRows[i].headerText
      {
        SetHeadersLabel(old(rows), InitialRows, i);
      }
      forall r ensures BodyText(r) == old(BodyText(r)) {
        SetHeadersLeavesBodies(old(rows), InitialRows, r);
      }
      if old(Tidy()) && (forall r :: r in DefaultRowKeys ==> r in rowKeys) {
        OwnedAfterSetHeaders(rowKeys, old(rows), InitialRows);
      }
    }

    /** The property-menu handler: "toggle-collpased" flips `collapsed`;
        "color" with a non-empty value sets `color` to it, unchecked against
        the palette; anything else changes nothing. `None` stands for an
        undefined value. */
    method OnPropertyChange(propertyName: string, propertyValue: Option<string>)
      modifies this
      ensures propertyName == ToggleCollapsedProperty ==>
        Fields() == old(Fields()).(collapsed := !old(collapsed))
      ensures propertyName != ToggleCollapsedProperty && propertyName == ColorProperty &&
              propertyValue.Some? && propertyValue.value != "" ==>
        Fields() == old(Fields()).(color := propertyValue.value)
      ensures propertyName != ToggleCollapsedProperty &&
              !(propertyName == ColorProperty && propertyValue.Some? && propertyValue.value != "") ==>
        Fields() == old(Fields())
      ensures rowKeys == old(rowKeys) && rows == old(rows)
    {
      if propertyName == ToggleCollapsedProperty {
        collapsed := !collapsed;
      } else if propertyName == ColorProperty && propertyValue.Some? && propertyValue.value != "" {
        color := propertyValue.value;
      }
    }

    /** A click on the card's header bar folds or unfolds the row table. */
    method ToggleCollapsed()
      modifies this
      ensures Fields() == old(Fields()).(collapsed := !old(collapsed))
      ensures rowKeys == old(rowKeys) && rows == old(rows)
    {
      collapsed := !collapsed;
    }

    /** A click on one of the three status boxes flips that flag only. */
    method ToggleStatus(flag: StatusFlag)
      modifies this
      ensures Fields() == Flip(old(Fields()), flag)
      ensures Status(Fields(), flag) == !Status(old(Fields()), flag)
      ensures forall other :: other != flag ==> Status(Fields(), other) == Status(old(Fields()), other)
      ensures rowKeys == old(rowKeys) && rows == old(rows)
    {
      match flag {
        case OnProgress => onProgress := !onProgress;
        case Trouble => trouble := !trouble;
        case Done => done := !done;
      }
    }

    /** The author field's edit commits its text. */
    method SetAuthor(text: string)
      modifies this
      ensures Fields() == old(Fields()).(author := text)
      ensures rowKeys == old(rowKeys) && rows == old(rows)
    {
      author := text;
    }

    /** The manager field's edit commits its text. */
    method SetManager(text: string)
      modifies this
      ensures Fields() == old(Fields()).(manager := text)
      ensures rowKeys == old(rowKeys) && rows == old(rows)
    {
      manager := text;
    }

    /** The main content field's edit commits its text. */
    method SetMainContentText(text: string)
      modifies this
      ensures Fields() == old(Fields()).(mainContentText := text)
      ensures rowKeys == old(rowKeys) && rows == old(rows)
    {
      mainContentText := text;
    }

    /** A row header's edit stores its text under the row's header key; that
        slot then reads exactly the text, every other slot as before. */
    method SetRowHeader(rowKey: string, text: string)
      modifies this
      ensures rows == old(rows)[HeaderKey(rowKey) := text]
      ensures HeaderText(rowKey) == text
      ensures forall c :: c != Cell(rowKey, Header) ==> Read(rows, CellKey(c)) == Read(old(rows), CellKey(c))
      ensures Fields() == old(Fields()) && rowKeys == old(rowKeys)
      ensures old(Tidy()) && rowKey in rowKeys ==> Tidy()
    {
      rows := rows[HeaderKey(rowKey) := text];
      forall c ensures Read(rows, CellKey(c)) == if c == Cell(rowKey, Header) then text else Read(old(rows), CellKey(c)) {
        ReadAfterWrite(old(rows), Cell(rowKey, Header), text, c);
      }
      if old(Tidy()) && rowKey in rowKeys {
        OwnedAfterWrite(rowKeys, old(rows), Cell(rowKey, Header), text);
      }
    }

    /** A row body's edit stores its text under the row's body key; that slot
        then reads exactly the text, every other slot as before. */
    method SetRowBody(rowKey: string, text: string)
      modifies this
      ensures rows == old(rows)[BodyKey(rowKey) := text]
      ensures BodyText(rowKey) == text
      ensures forall c :: c != Cell(rowKey, Body) ==> Read(rows, CellKey(c)) == Read(old(rows), CellKey(c))
      ensures Fields() == old(Fields()) && rowKeys == old(rowKeys)
      ensures old(Tidy()) && rowKey in rowKeys ==> Tidy()
    {
      rows := rows[BodyKey(rowKey) := text];
      forall c ensures Read(rows, CellKey(c)) == if c == Cell(rowKey, Body) then text else Read(old(rows), CellKey(c)) {
        ReadAfterWrite(old(rows), Cell(rowKey, Body), text, c);
      }
      if old(Tidy()) && rowKey in rowKeys {
        OwnedAfterWrite(rowKeys, old(rows), Cell(rowKey, Body), text);
      }
    }

    /** `addRow`, with the random draws supplied: the first draw whose key
        is not yet listed is appended; draws that collide are skipped, as
        the retry does.  `tries` is the number of colliding draws; when all
        of them collide, nothing changes. No text entry is created. */
    method AddRow(draws: seq<Draw>) returns (tries: nat)
      modifies this
      ensures old(Valid()) ==> Valid()
      ensures tries <= |draws|
      ensures forall j :: 0 <= j < tries ==> PadKey(draws[j]) in old(rowKeys)
      ensures tries < |draws| ==>
        PadKey(draws[tries]) !in old(rowKeys) && rowKeys == old(rowKeys) + [PadKey(draws[tries])]
      ensures tries == |draws| ==> rowKeys == old(rowKeys)
      ensures Fields() == old(Fields()) && rows == old(rows)
      ensures old(Tidy()) ==> Tidy()
      ensures old(Tidy()) && tries < |draws| ==>
        HeaderText(PadKey(draws[tries])) == "" && BodyText(PadKey(draws[tries])) == ""
    {
      tries := FirstFreshDraw(rowKeys, draws);
      if tries < |draws| {
        var newKey := PadKey(draws[tries]);
        if Valid() {
          AppendFreshNoDuplicates(rowKeys, newKey);
        }
        if Tidy() {
          UnlistedRowHasNoCells(rowKeys, rows, newKey);
        }
        rowKeys := rowKeys + [newKey];
      }
    }

    /** `deleteRow`: unlist the row, keeping the others in order, and delete
        its header and body entries; nothing else changes. */
    method DeleteRow(rowKey: string)
      modifies this
      ensures rowKeys == RemoveKey(old(rowKeys), rowKey)
      ensures rows == old(rows) - {HeaderKey(rowKey), BodyKey(rowKey)}
      ensures Fields() == old(Fields())
      ensures rowKey !in rowKeys && IsSubsequence(rowKeys, old(rowKeys))
      ensures HeaderText(rowKey) == "" && BodyText(rowKey) == ""
      ensures forall c: Cell :: c.rowKey != rowKey ==> Read(rows, CellKey(c)) == Read(old(rows), CellKey(c))
      ensures old(Valid()) ==> Valid()
      ensures old(Tidy()) ==> Tidy()
      ensures old(Tidy()) && rowKey !in old(rowKeys) ==> rowKeys == old(rowKeys) && rows == old(rows)
    {
      RemoveKeyKeepsOrder(rowKeys, rowKey);
      if Valid() {
        RemoveKeyNoDuplicates(rowKeys, rowKey);
      }
      if Tidy() {
        OwnedAfterDeleteRow(rowKeys, rows, rowKey);
        if rowKey !in rowKeys {
          DeleteAbsentRowIsNoop(rowKeys, rows, rowKey);
        }
      }
      rowKeys := RemoveKey(rowKeys, rowKey);
      rows := rows - {HeaderKey(rowKey)};
      rows := rows - {BodyKey(rowKey)};
      forall c: Cell ensures Read(rows, CellKey(c)) == if c.rowKey == rowKey then "" else Read(old(rows), CellKey(c)) {
        assert rows == old(rows) - {HeaderKey(rowKey), BodyKey(rowKey)};
        ReadAfterDeleteRow(old(rows), rowKey, c);
      }
      assert HeaderText(rowKey) == Read(rows, CellKey(Cell(rowKey, Header)));
      assert BodyText(rowKey) == Read(rows, CellKey(Cell(rowKey, Body)));
    }
  }

  /** Client scenarios over a card's life, whose assertions Dafny verifies
      from the method contracts above alone.  A fresh card, once initialised, shows the default
      labels, and a second run of the effect changes nothing. */
  method ScenarioInitialise() {
    var card := new Card();
    card.Initialise();
    InitialRowsDistinct();
    assert card.HeaderText(InitialRows[0].rowKey) == InitialRows[0].headerText;
    assert card.HeaderText("date") == "기간";
    assert card.BodyText("date") == "";
    ghost var fields, keys, rows := card.Fields(), card.rowKeys, card.rows;
    card.Initialise();
    assert card.Fields() == fields && card.rowKeys == keys && card.rows == rows;
  }

  /** The first draw never collides with the default rows: one numeric key
      is appended and its slots read as empty. */
  method ScenarioAddRow(d: Draw) {
    var card := new Card();
    DrawNeverDefault(d);
    var tries := card.AddRow([d]);
    assert [d][0] == d;
    assert tries == 0;
    InitialRowsDistinct();
    assert card.rowKeys == ["date", "status", "problem", PadKey(d)];
    assert card.HeaderText(PadKey(d)) == "";
  }

  /** Text written to a row is gone once the row is deleted. */
  method ScenarioDeleteRow() {
    var card := new Card();
    card.SetRowBody("status", "blocked on review");
    assert card.BodyText("status") == "blocked on review";
    card.DeleteRow("status");
    assert card.BodyText("status") == "";
    InitialRowsDistinct();
    assert card.rowKeys == ["date", "problem"];
  }

  /** Toggling "done" twice restores the card. */
  method ScenarioToggleTwice() {
    var card := new Card();
    card.ToggleStatus(Done);
    assert card.done && !card.onProgress && !card.trouble;
    card.ToggleStatus(Done);
    assert card.Fields() == DefaultFields;
  }
}
