/** The row collection as values: the ordered list of row keys (`rowKeys`),
    the shared text map (`rows`) and the operations the widget performs on
    them, with the properties those operations keep. */
module RowStore {
  import opened CellKeys

  /** No row key occurs twice in the list. */
  predicate NoDuplicates(s: seq<string>) {
    forall i, j :: 0 <= i < j < |s| ==> s[i] != s[j]
  }

  /** Every entry of the map is a header or body slot of a live row. */
  predicate Owned(rowKeys: seq<string>, rows: map<string, string>) {
    forall key :: key in rows ==>
      ParseCellKey(key).Some? && ParseCellKey(key).value.rowKey in rowKeys
  }

  /** `rows.get(key) ?? ""`: a missing entry reads as the empty text. */
  function Read(rows: map<string, string>, key: string): string {
    if key in rows then rows[key] else ""
  }

  /** `a` is `b` with some elements dropped and the rest in their order. */
  predicate IsSubsequence(a: seq<string>, b: seq<string>)
    decreases |b|
  {
    if a == [] then true
    else if b == [] then false
    else if a[0] == b[0] then IsSubsequence(a[1..], b[1..])
    else IsSubsequence(a, b[1..])
  }

  /** `rowKeys.filter((key) => key !== rowKey)`. */
  function RemoveKey(s: seq<string>, k: string): (r: seq<string>)
    ensures forall x :: x in r <==> x in s && x != k
    ensures k !in s ==> r == s
  {
    if s == [] then []
    else if s[0] == k then RemoveKey(s[1..], k)
    else [s[0]] + RemoveKey(s[1..], k)
  }

  /** The filter keeps the surviving keys in their original order. */
  lemma {:induction false} RemoveKeyKeepsOrder(s: seq<string>, k: string)
    ensures IsSubsequence(RemoveKey(s, k), s)
  {
    if s != [] {
      RemoveKeyKeepsOrder(s[1..], k);
      var r := RemoveKey(s, k);
      if s[0] != k {
        assert r[0] == s[0] && r[1..] == RemoveKey(s[1..], k);
      } else if r != [] {
        assert r[0] != s[0];
      }
    }
  }

  /** The filter drops every occurrence of k and keeps every other key as
      often as it occurred. */
  lemma {:induction false} RemoveKeyMultiset(s: seq<string>, k: string)
    ensures multiset(RemoveKey(s, k)) == multiset(s)[k := 0]
  {
    if s != [] {
      RemoveKeyMultiset(s[1..], k);
      assert s == [s[0]] + s[1..];
    }
  }

  /** Filtering a duplicate-free list leaves it duplicate-free. */
  lemma {:induction false} RemoveKeyNoDuplicates(s: seq<string>, k: string)
    requires NoDuplicates(s)
    ensures NoDuplicates(RemoveKey(s, k))
  {
    if s != [] {
      RemoveKeyNoDuplicates(s[1..], k);
      if s[0] != k {
        assert s[0] !in s[1..] by {
          forall j | 0 <= j < |s[1..]| ensures s[1..][j] != s[0] {
            assert s[1..][j] == s[j + 1];
          }
        }
        ConsFreshNoDuplicates(s[0], RemoveKey(s[1..], k));
      }
    }
  }

  /** Putting a key that is not listed in front keeps the list duplicate-free. */
  lemma ConsFreshNoDuplicates(x: string, t: seq<string>)
    requires NoDuplicates(t) && x !in t
    ensures NoDuplicates([x] + t)
  {
  }

  /** Appending a key that is not yet listed keeps the list duplicate-free. */
  lemma AppendFreshNoDuplicates(s: seq<string>, x: string)
    requires NoDuplicates(s) && x !in s
    ensures NoDuplicates(s + [x])
  {
  }

  /** Writing a slot and reading a slot: the written slot reads back exactly
      the text written, every other slot reads as before. */
  lemma ReadAfterWrite(rows: map<string, string>, c: Cell, t: string, d: Cell)
    ensures Read(rows[CellKey(c) := t], CellKey(d)) ==
            if d == c then t else Read(rows, CellKey(d))
  {
    CellKeyInjective(c, d);
  }

  /** After a row's two slots are deleted they read as "", and every slot of
      every other row reads as before. */
  lemma ReadAfterDeleteRow(rows: map<string, string>, k: string, d: Cell)
    ensures Read(rows - {HeaderKey(k), BodyKey(k)}, CellKey(d)) ==
            if d.rowKey == k then "" else Read(rows, CellKey(d))
  {
    CellKeyInjective(d, Cell(k, Header));
    CellKeyInjective(d, Cell(k, Body));
  }

  /** Writing a slot of a live row keeps every map entry owned. */
  lemma OwnedAfterWrite(rowKeys: seq<string>, rows: map<string, string>, c: Cell, t: string)
    requires Owned(rowKeys, rows) && c.rowKey in rowKeys
    ensures Owned(rowKeys, rows[CellKey(c) := t])
  {
    ParseCellKeyRoundTrip(c);
  }

  /** Deleting a row from the list and both of its slots from the map keeps
      every remaining entry owned by a remaining row. */
  lemma OwnedAfterDeleteRow(rowKeys: seq<string>, rows: map<string, string>, k: string)
    requires Owned(rowKeys, rows)
    ensures Owned(RemoveKey(rowKeys, k), rows - {HeaderKey(k), BodyKey(k)})
  {
    forall key | key in rows - {HeaderKey(k), BodyKey(k)}
      ensures ParseCellKey(key).Some? && ParseCellKey(key).value.rowKey in RemoveKey(rowKeys, k)
    {
      CellKeyOfParse(key);
    }
  }

  /** When the map is owned by the list, a row that is not listed has no
      entries. */
  lemma UnlistedRowHasNoCells(rowKeys: seq<string>, rows: map<string, string>, k: string)
    requires Owned(rowKeys, rows) && k !in rowKeys
    ensures HeaderKey(k) !in rows && BodyKey(k) !in rows
  {
    ParseCellKeyRoundTrip(Cell(k, Header));
    ParseCellKeyRoundTrip(Cell(k, Body));
  }

  /** When the map is owned by the list, deleting a row that is not listed
      changes neither the list nor the map. */
  lemma DeleteAbsentRowIsNoop(rowKeys: seq<string>, rows: map<string, string>, k: string)
    requires Owned(rowKeys, rows) && k !in rowKeys
    ensures RemoveKey(rowKeys, k) == rowKeys
    ensures rows - {HeaderKey(k), BodyKey(k)} == rows
  {
    UnlistedRowHasNoCells(rowKeys, rows, k);
  }

  /** One entry of the table of default rows. */
  datatype InitialRow = InitialRow(rowKey: string, headerText: string)

  /** No two entries of the table name the same row. */
  predicate DistinctRows(table: seq<InitialRow>) {
    forall i, j :: 0 <= i < j < |table| ==> table[i].rowKey != table[j].rowKey
  }

  /** The `forEach` of the initialiser: set each entry's header slot to its
      label, in table order. */
  function SetHeaders(rows: map<string, string>, table: seq<InitialRow>): (r: map<string, string>)
    ensures rows.Keys <= r.Keys
    ensures forall i :: 0 <= i < |table| ==> HeaderKey(table[i].rowKey) in r
    decreases |table|
  {
    if table == [] then rows
    else SetHeaders(rows[HeaderKey(table[0].rowKey) := table[0].headerText], table[1..])
  }

  /** Keys that are not the header key of a table entry are untouched. */
  lemma {:induction false} SetHeadersElsewhere(rows: map<string, string>, table: seq<InitialRow>, key: string)
    requires forall i :: 0 <= i < |table| ==> key != HeaderKey(table[i].rowKey)
    ensures key in SetHeaders(rows, table) <==> key in rows
    ensures key in rows ==> SetHeaders(rows, table)[key] == rows[key]
    decreases |table|
  {
    if table != [] {
      assert key != HeaderKey(table[0].rowKey);
      forall i | 0 <= i < |table[1..]| ensures key != HeaderKey(table[1..][i].rowKey) {
        assert table[1..][i] == table[i + 1];
      }
      SetHeadersElsewhere(rows[HeaderKey(table[0].rowKey) := table[0].headerText], table[1..], key);
    }
  }

  /** With distinct rows, each entry's header slot holds that entry's label. */
  lemma {:induction false} SetHeadersLabel(rows: map<string, string>, table: seq<InitialRow>, i: nat)
    requires DistinctRows(table) && i < |table|
    ensures HeaderKey(table[i].rowKey) in SetHeaders(rows, table)
    ensures SetHeaders(rows, table)[HeaderKey(table[i].rowKey)] == table[i].headerText
    decreases |table|
  {
    var rows' := rows[HeaderKey(table[0].rowKey) := table[0].headerText];
    var rest := table[1..];
    assert DistinctRows(rest) by {
      forall a, b | 0 <= a < b < |rest| ensures rest[a].rowKey != rest[b].rowKey {
        assert rest[a] == table[a + 1] && rest[b] == table[b + 1];
      }
    }
    if i == 0 {
      forall j | 0 <= j < |rest| ensures HeaderKey(table[0].rowKey) != HeaderKey(rest[j].rowKey) {
        assert rest[j] == table[j + 1];
        HeaderKeyInjective(table[0].rowKey, rest[j].rowKey);
      }
      SetHeadersElsewhere(rows', rest, HeaderKey(table[0].rowKey));
    } else {
      assert rest[i - 1] == table[i];
      SetHeadersLabel(rows', rest, i - 1);
    }
  }

  /** No body slot is touched by the initialiser's loop. */
  lemma SetHeadersLeavesBodies(rows: map<string, string>, table: seq<InitialRow>, rowKey: string)
    ensures Read(SetHeaders(rows, table), BodyKey(rowKey)) == Read(rows, BodyKey(rowKey))
  {
    forall i | 0 <= i < |table| ensures BodyKey(rowKey) != HeaderKey(table[i].rowKey) {
      HeaderKeyNeverBodyKey(table[i].rowKey, rowKey);
    }
    SetHeadersElsewhere(rows, table, BodyKey(rowKey));
  }

  /** Setting the default headers a second time changes nothing. */
  lemma SetHeadersIdempotent(rows: map<string, string>, table: seq<InitialRow>)
    requires DistinctRows(table)
    ensures SetHeaders(SetHeaders(rows, table), table) == SetHeaders(rows, table)
  {
    var once := SetHeaders(rows, table);
    var twice := SetHeaders(once, table);
    forall key | key in once || key in twice
      ensures key in once && key in twice && twice[key] == once[key]
    {
      if i :| 0 <= i < |table| && key == HeaderKey(table[i].rowKey) {
        SetHeadersLabel(rows, table, i);
        SetHeadersLabel(once, table, i);
      } else {
        SetHeadersElsewhere(rows, table, key);
        SetHeadersElsewhere(once, table, key);
      }
    }
  }

  /** Setting headers of listed rows keeps every map entry owned. */
  lemma {:induction false} OwnedAfterSetHeaders(rowKeys: seq<string>, rows: map<string, string>, table: seq<InitialRow>)
    requires Owned(rowKeys, rows)
    requires forall i :: 0 <= i < |table| ==> table[i].rowKey in rowKeys
    ensures Owned(rowKeys, SetHeaders(rows, table))
    decreases |table|
  {
    if table != [] {
      OwnedAfterWrite(rowKeys, rows, Cell(table[0].rowKey, Header), table[0].headerText);
      forall i | 0 <= i < |table[1..]| ensures table[1..][i].rowKey in rowKeys {
        assert table[1..][i] == table[i + 1];
      }
      OwnedAfterSetHeaders(rowKeys, rows[HeaderKey(table[0].rowKey) := table[0].headerText], table[1..]);
    }
  }
}
