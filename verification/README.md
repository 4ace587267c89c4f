# Collapsible task card: state model

A model of the persistent state of the collapsible "task card" widget for a
collaborative design canvas, and of the callbacks that change it
(`widget-src/code.tsx`). The card keeps these values:

- scalar synced values: `initialized`, `collapsed`, `author`, `manager`,
  `mainContentText`, the three independent status flags `onProgress`,
  `trouble` and `done`, and `color`;
- an ordered list of row keys, `rowKeys`;
- a shared string map, `rows`. It holds each row's header text under
  `<rowKey>-header` and its body text under `<rowKey>-body`.

The modules are:

- `RowIds`: how `addRow` turns a random draw into a six-digit key, and the
  retry on collision.
- `CellKeys`: the derived header and body keys and their inverse.
- `RowStore`: the list and map operations as values, with their lemmas.
- `TaskCard`: class `Card`. Its fields are the synced values. It has one
  method per callback.

`Card` has two invariants. `Valid()` says no row key is listed twice.
`Tidy()` says every map entry is the header or body slot of a listed row.

The `Scenario…` methods in `task_card.dfy` are client scenarios. Dafny
verifies their assertions from the method contracts alone.

The row-key list starts as `["date", "status", "problem"]`, the synced
state's default (code.tsx:42-45). The initialiser adds no rows. It sets
`initialized`, then writes the three header labels and no body text
(code.tsx:80-86).

The widget's constants are `TaskCard.Colors` (code.tsx:14),
`TaskCard.InitialRows` (code.tsx:16-20), `TaskCard.DefaultRowKeys`
(code.tsx:42-45) and `TaskCard.DefaultFields` (code.tsx:25-47). The
properties of these constants are stated by `TaskCard.InitialRowsDistinct`
and by `TaskCard.Card.constructor`.

## Model

| member | source | states |
|---|---|---|
| `RowIds.Decimal` | widget-src/code.tsx:55 | `n.toString()` for a non-negative integer is a non-empty string of decimal digits with no leading zero |
| `RowIds.TakeLast` | widget-src/code.tsx:56 | `slice(-k)` gives the last k characters, or the whole string when it is shorter |
| `RowIds.ValueOfDecimal` | widget-src/code.tsx:55 | the decimal string of n denotes n |
| `RowIds.PadKey` | widget-src/code.tsx:54-56 | the candidate key of a draw is exactly six decimal digits; its value is stated by `RowIds.PadKeyDenotesDraw` |
| `RowIds.PadKeyDenotesDraw` | widget-src/code.tsx:54-56 | for every draw 0 ≤ n < 1000000, the padded key is exactly 6 characters long, all decimal digits, and denotes n |
| `RowIds.PadKeyInjective` | widget-src/code.tsx:54-56 | two draws give the same key if and only if they are equal |
| `RowIds.FirstFreshDraw` | widget-src/code.tsx:53-59 | the retry returns the first draw whose key is not already listed. Every earlier draw collided. If it returns the number of draws, every draw collided |
| `CellKeys.HeaderKey` | widget-src/code.tsx:50 | `getRowHeaderKey`; a definition, whose properties are stated by `CellKeys.ParseCellKeyRoundTrip`, `CellKeys.HeaderKeyInjective` and `CellKeys.HeaderKeyNeverBodyKey` |
| `CellKeys.BodyKey` | widget-src/code.tsx:51 | `getRowBodyKey`; a definition, whose properties are stated by `CellKeys.ParseCellKeyRoundTrip`, `CellKeys.BodyKeyInjective` and `CellKeys.HeaderKeyNeverBodyKey` |
| `CellKeys.ParseCellKeyRoundTrip` | widget-src/code.tsx:50-51 | a header or body key parses back to exactly its row and slot |
| `CellKeys.CellKeyOfParse` | widget-src/code.tsx:50-51 | a key that parses is the derived key of the cell it parses to |
| `CellKeys.CellKeyInjective` | widget-src/code.tsx:50-51 | two cells have the same derived key if and only if they are the same cell |
| `CellKeys.HeaderKeyInjective` | widget-src/code.tsx:50 | `r1-header` = `r2-header` if and only if r1 = r2 |
| `CellKeys.BodyKeyInjective` | widget-src/code.tsx:51 | `r1-body` = `r2-body` if and only if r1 = r2 |
| `CellKeys.HeaderKeyNeverBodyKey` | widget-src/code.tsx:50-51 | a header key never equals a body key, whatever the two rows |
| `RowStore.RemoveKey` | widget-src/code.tsx:66 | the filter keeps exactly the keys other than k. If k is not listed, the list is unchanged |
| `RowStore.RemoveKeyKeepsOrder` | widget-src/code.tsx:66 | the filtered list is a subsequence of the original: the survivors keep their relative order |
| `RowStore.RemoveKeyMultiset` | widget-src/code.tsx:66 | the filter removes every occurrence of k and keeps every other key as often as before |
| `RowStore.RemoveKeyNoDuplicates` | widget-src/code.tsx:66 | filtering a list with no duplicates leaves it with no duplicates |
| `RowStore.AppendFreshNoDuplicates` | widget-src/code.tsx:58-61 | appending a key that is not listed keeps the list free of duplicates |
| `RowStore.Read` | widget-src/code.tsx:286-287 | a read that defaults to ""; a definition, whose properties are stated by `RowStore.ReadAfterWrite` and `RowStore.ReadAfterDeleteRow` |
| `TaskCard.Card.HeaderText` | widget-src/code.tsx:286 | the header text a row shows; a definition, whose properties are stated by `TaskCard.Card.SetRowHeader` and `TaskCard.Card.DeleteRow` |
| `TaskCard.Card.BodyText` | widget-src/code.tsx:287 | the body text a row shows; a definition, whose properties are stated by `TaskCard.Card.SetRowBody` and `TaskCard.Card.DeleteRow` |
| `RowStore.ReadAfterWrite` | widget-src/code.tsx:286-287 | after a slot is set to t, that slot reads exactly t, including "". Every other slot of every row reads as before |
| `RowStore.ReadAfterDeleteRow` | widget-src/code.tsx:65-69 | after a row's two entries are deleted, both of its slots read "". Every slot of every other row reads as before |
| `RowStore.OwnedAfterWrite` | widget-src/code.tsx:306 | writing a slot of a listed row keeps every map entry owned by a listed row |
| `RowStore.OwnedAfterDeleteRow` | widget-src/code.tsx:65-69 | deleting a row from both the list and the map keeps every remaining entry owned by a remaining row |
| `RowStore.UnlistedRowHasNoCells` | widget-src/code.tsx:48-51 | under the ownership invariant, a row that is not listed has no header or body entry |
| `RowStore.DeleteAbsentRowIsNoop` | widget-src/code.tsx:65-69 | under the ownership invariant, deleting an unlisted row leaves both the list and the map unchanged |
| `RowStore.SetHeaders` | widget-src/code.tsx:83-85 | the initialiser's loop keeps every existing key and leaves a header entry for every table row; the values are stated by `RowStore.SetHeadersLabel` and `RowStore.SetHeadersElsewhere` |
| `RowStore.SetHeadersElsewhere` | widget-src/code.tsx:83-85 | the initialiser's loop leaves every key that is not a default header key unchanged, both its presence and its value |
| `RowStore.SetHeadersLabel` | widget-src/code.tsx:83-85 | after the loop, each default row's header slot holds that row's label |
| `RowStore.SetHeadersLeavesBodies` | widget-src/code.tsx:83-85 | the loop never changes a body slot |
| `RowStore.SetHeadersIdempotent` | widget-src/code.tsx:80-86 | running the header loop twice gives the same map as running it once |
| `RowStore.OwnedAfterSetHeaders` | widget-src/code.tsx:83-85 | if every default row is listed, the loop keeps every map entry owned |
| `TaskCard.Status` | widget-src/code.tsx:175-187 | the value of one of the three status flags; a definition, whose properties are stated by `TaskCard.Flip` and `TaskCard.FlipTwice` |
| `TaskCard.Flip` | widget-src/code.tsx:199-201 | a status click negates its own flag and leaves the other two flags unchanged |
| `TaskCard.FlipTwice` | widget-src/code.tsx:199-201 | two clicks on the same status box restore all fields |
| `TaskCard.InitialRowsDistinct` | widget-src/code.tsx:16-20 | the default table lists three distinct rows. Its keys, in order, are the default row-key list |
| `TaskCard.DrawNeverDefault` | widget-src/code.tsx:42-45 | a drawn key is never one of `date`, `status`, `problem` |
| `TaskCard.Card.constructor` | widget-src/code.tsx:25-48 | a new card has all flags false and all texts "", `rowKeys = ["date","status","problem"]`, `color = "#BDE3FF"` and an empty map. Both invariants hold |
| `TaskCard.Card.Initialise` | widget-src/code.tsx:80-86 | if the card is already initialised, nothing changes. Otherwise `initialized` becomes true and the three default header labels are written. No body slot and no other field changes. A second run is therefore a no-op. The invariants are kept |
| `TaskCard.Card.OnPropertyChange` | widget-src/code.tsx:112-121 | `toggle-collpased` flips `collapsed`. `color` with a non-empty value sets `color` to that value, with no palette check. Any other name, or an undefined or empty colour, changes nothing. The list and map are untouched |
| `TaskCard.Card.ToggleCollapsed` | widget-src/code.tsx:166 | flips `collapsed` only |
| `TaskCard.Card.ToggleStatus` | widget-src/code.tsx:199-201 | flips the chosen status flag only. The other two flags and every other field are unchanged |
| `TaskCard.Card.SetAuthor` | widget-src/code.tsx:221-223 | the committed text becomes `author`. Nothing else changes |
| `TaskCard.Card.SetManager` | widget-src/code.tsx:238-240 | the committed text becomes `manager`. Nothing else changes |
| `TaskCard.Card.SetMainContentText` | widget-src/code.tsx:260 | the committed text becomes `mainContentText`. Nothing else changes |
| `TaskCard.Card.SetRowHeader` | widget-src/code.tsx:306 | the row's header slot reads exactly the committed text. Every other slot reads as before. Scalars and the list are unchanged. Ownership is kept for a listed row |
| `TaskCard.Card.SetRowBody` | widget-src/code.tsx:329 | the row's body slot reads exactly the committed text. Every other slot reads as before. Scalars and the list are unchanged. Ownership is kept for a listed row |
| `TaskCard.Card.AddRow` | widget-src/code.tsx:53-63 | colliding draws are skipped and append nothing. The first fresh key is appended once and is not previously listed. The map and scalars are unchanged. No duplicates and ownership are preserved. The new row's slots read "" |
| `TaskCard.Card.DeleteRow` | widget-src/code.tsx:65-69 | the key is no longer listed and the survivors keep their order. Both of its slots read "". Other rows' slots and all scalars are unchanged. The invariants are kept. Under ownership, deleting an unlisted key changes nothing |

## Left out

- Layout and styling are not modelled: sizes, shadows, strokes, fills, hover styles and the SVG icon markup (code.tsx:124-379). They are presentation only. The `hidden={collapsed}` flag is modelled only as the `collapsed` field.
- `Math.random()` and the floating-point `Math.floor` are not modelled. Their place is taken by an integer draw in [0, 1000000).
- `TaskCard.Card.AddRow`: the source retries without bound until a draw is fresh. The model tries a finite sequence of supplied draws. When every draw collides, it appends nothing. The model makes no claim that the source's recursion terminates.
- The host hooks `useSyncedState`, `useSyncedMap`, `useEffect`, `usePropertyMenu` and `widget.register` are modelled as plain fields and map storage. Their replication to other users and their conflict handling belong to the host and are not modelled.
- In the source, a recursive `addRow` call reads the `rowKeys` captured by the render. The model reads the current list. The two differ only in the host's re-render scheduling, which is not modelled. Neither is the timing of the effect.
- Tooltips and other labels apart from the three default header labels are not modelled. Neither is the commented-out manager dropdown (code.tsx:22, 46, 71-77, 104-110, 118-120).
- `TaskCard.Card.Initialise`: the ownership invariant is preserved only when the three default rows are still listed. In the widget the effect runs at the first render, before any row can be deleted.
- `TaskCard.Card.SetRowHeader`: ownership is preserved only when the row is listed. The widget offers the edit only for rendered, listed rows.
- `TaskCard.Card.SetRowBody`: ownership is preserved only when the row is listed, for the same reason.
