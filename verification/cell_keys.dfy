/** Keys of the shared `rows` map.

    A row's header text is stored under `<rowKey>-header` and its body text
    under `<rowKey>-body`.  `ParseCellKey` is the inverse of the two
    derivations; its round trips show that the scheme is injective, which is
    what lets a row's deletion leave every other row's text alone. */
module CellKeys {
  import opened Wrappers

  /** The two text slots of a row. */
  datatype Slot = Header | Body

  /** A slot of a named row. */
  datatype Cell = Cell(rowKey: string, slot: Slot)

  const HeaderSuffix: string := "-header"
  const BodySuffix: string := "-body"

  /** `getRowHeaderKey`. */
  function HeaderKey(rowKey: string): string {
    rowKey + HeaderSuffix
  }

  /** `getRowBodyKey`. */
  function BodyKey(rowKey: string): string {
    rowKey + BodySuffix
  }

  function CellKey(c: Cell): string {
    match c.slot
    case Header => HeaderKey(c.rowKey)
    case Body => BodyKey(c.rowKey)
  }

  /** The row and slot a map key belongs to, if it is a derived key. */
  function ParseCellKey(key: string): Option<Cell> {
    if |key| >= |HeaderSuffix| && key[|key| - |HeaderSuffix|..] == HeaderSuffix then
      Some(Cell(key[..|key| - |HeaderSuffix|], Header))
    else if |key| >= |BodySuffix| && key[|key| - |BodySuffix|..] == BodySuffix then
      Some(Cell(key[..|key| - |BodySuffix|], Body))
    else
      None
  }

  /** Every derived key parses back to the row and slot it was made from. */
  lemma ParseCellKeyRoundTrip(c: Cell)
    ensures ParseCellKey(CellKey(c)) == Some(c)
  {
    var key := CellKey(c);
    match c.slot
    case Header =>
      assert key[..|key| - |HeaderSuffix|] == c.rowKey;
      assert key[|key| - |HeaderSuffix|..] == HeaderSuffix;
    case Body =>
      assert key[..|key| - |BodySuffix|] == c.rowKey;
      assert key[|key| - |BodySuffix|..] == BodySuffix;
      if |key| >= |HeaderSuffix| {
        // the last character of a body key is 'y', of a header key 'r'
        assert key[|key| - 1] == 'y';
        assert key[|key| - |HeaderSuffix|..][|HeaderSuffix| - 1] == 'y';
      }
  }

  /** A key that parses is the derived key of the cell it parses to. */
  lemma CellKeyOfParse(key: string)
    requires ParseCellKey(key).Some?
    ensures CellKey(ParseCellKey(key).value) == key
  {
  }

  /** Distinct cells have distinct keys. */
  lemma CellKeyInjective(c1: Cell, c2: Cell)
    ensures CellKey(c1) == CellKey(c2) <==> c1 == c2
  {
    ParseCellKeyRoundTrip(c1);
    ParseCellKeyRoundTrip(c2);
  }

  /** `r1-header` equals `r2-header` only when r1 equals r2. */
  lemma HeaderKeyInjective(r1: string, r2: string)
    ensures HeaderKey(r1) == HeaderKey(r2) <==> r1 == r2
  {
    CellKeyInjective(Cell(r1, Header), Cell(r2, Header));
  }

  /** `r1-body` equals `r2-body` only when r1 equals r2. */
  lemma BodyKeyInjective(r1: string, r2: string)
    ensures BodyKey(r1) == BodyKey(r2) <==> r1 == r2
  {
    CellKeyInjective(Cell(r1, Body), Cell(r2, Body));
  }

  /** No header key is a body key, whatever the two rows. */
  lemma HeaderKeyNeverBodyKey(r1: string, r2: string)
    ensures HeaderKey(r1) != BodyKey(r2)
  {
    CellKeyInjective(Cell(r1, Header), Cell(r2, Body));
  }
}
