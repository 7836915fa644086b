# ui-components: DataTable and InputField in Dafny

This project models the two components of the ui-components library that hold
logic:

- **DataTable** (`src/components/DataTable.tsx`) renders records as a table.
  A sortable column header toggles a sort directive: an active key, or none,
  plus an ascending flag. The displayed rows are a copy of the records,
  ordered by the field the active key names. When the table is selectable, a
  checkbox per row toggles that row's id in a selection set. Each toggle
  hands the optional `onRowSelect` callback the input records whose id is
  selected. A loading flag and an empty record list each replace the table
  with a message.
- **InputField** (`src/components/InputField.tsx`) renders a labelled input.
  The input is masked for a password field until its show/hide button is
  clicked. Below the input it shows either a helper text ("loading..." while
  loading) or, for an invalid field, an error message.

The React `useState` cells become an explicit immutable state record
(`DataTable.TableState`, `InputField.FieldState`). Event handlers become pure
transition functions. Rendering becomes a pure function to a small view
datatype.

Files:

- `js_values.dfy`, module `JsValues`: optional props and JavaScript
  truthiness. Also the `<` operator on field values: numbers, strings, and
  `undefined`. Holds the order lemmas for string comparison.
- `row_sort.dfy`, module `RowSort`: records, field lookup, the three-way
  comparator and the sort of the copied record list.
- `data_table.dfy`, module `DataTable`: the sort directive, derived sort,
  row selection with its callback payload, and render gating.
- `input_field.dfy`, module `InputField`: the message, masking and toggle
  logic and the prop defaults.

Points where the model follows the code rather than a looser reading of it:

- The sort reads the record field named by the column's `key`
  (`a[sortKey]`), not by its `dataIndex`. Cells read `dataIndex`.
- `if (sortKey)` is a truthiness test. A sortable column whose key is `""`
  therefore becomes the active column and shows its arrow, but the rows stay
  in input order (`DataTable.EmptyKeyShowsArrowUnsorted`).
- Optional strings follow truthiness: an empty label, helper text or error
  message renders exactly like an absent one.
- The selection payload filters the input `data`, not the sorted rows. It
  is therefore in input order and does not depend on the sort directive.
- The sort is specified only as an ordered permutation, never as stable. The
  model's sort is an insertion sort. Any other sort satisfying the same
  contract would serve equally well.

## Model

| member | source | states |
|---|---|---|
| JsValues.StrLessIsLexicographic | src/components/DataTable.tsx:33-34 | String `<` is lexicographic order by character. A proper prefix is smaller, and otherwise the first differing character decides. Both directions are proved. |
| JsValues.StrLessAsymmetric | src/components/DataTable.tsx:33-34 | For strings, `a < b` and `b < a` never hold together. |
| JsValues.StrLessTransitive | src/components/DataTable.tsx:33-34 | String `<` is transitive. |
| JsValues.StrLessTotal | src/components/DataTable.tsx:33-34 | Any two distinct strings are related by `<` one way or the other. |
| JsValues.LessAsymmetric | src/components/DataTable.tsx:33-34 | For field values, `<` never holds in both directions, so the comparator's two tests cannot both succeed. |
| JsValues.LessTransitive | src/components/DataTable.tsx:33-34 | For field values, `<` is transitive. |
| JsValues.LessTotalOnSameKind | src/components/DataTable.tsx:33-35 | Two distinct numbers, or two distinct strings, are always ordered one way. A return value of 0 from the comparator therefore means equal values. |
| JsValues.NotLessTransitive | src/components/DataTable.tsx:33-35 | For values of one kind, "not greater than" is transitive. This is what makes the comparator a consistent order. |
| RowSort.Field | src/components/DataTable.tsx:31-32 | Looking up the `id` key yields the record's id. Looking up a field the record has yields its stored value. Looking up a key the record does not have yields `undefined`. |
| RowSort.Compare | src/components/DataTable.tsx:30-36 | The comparator returns -1, 0 or 1. It is non-positive exactly when `a` may precede `b` in the active direction, and non-negative exactly when `b` may precede `a`. |
| RowSort.Insert | src/components/DataTable.tsx:30-36 | Inserting a record into an ordered list adds exactly that record and keeps the list ordered. |
| RowSort.SortBy | src/components/DataTable.tsx:30-36 | The sorted copy is a permutation of its input. Each neighbouring pair is in order for the key and direction. |
| RowSort.OrderedHomogeneousIsSorted | src/components/DataTable.tsx:31-35 | When every record holds the same kind of value under the key, neighbouring order implies that every pair is in order. |
| RowSort.HomogeneousPermutation | src/components/DataTable.tsx:30 | A permuted copy keeps the property that every record holds one kind of value under the key. |
| DataTable.ToggleSort | src/components/DataTable.tsx:39-46 | After a header click, the clicked key is active. The direction flips if that key was already active, and becomes ascending otherwise. The selection is untouched. |
| DataTable.ClickHeader | src/components/DataTable.tsx:73 | Clicking a non-sortable header leaves the state unchanged. A sortable header applies the sort toggle. |
| DataTable.ToggleSortActiveTwice | src/components/DataTable.tsx:39-41 | Clicking the active column twice restores the directive. |
| DataTable.SwitchColumnResetsAscending | src/components/DataTable.tsx:42-45 | Clicking one column and then a different one leaves the second column active and ascending. |
| DataTable.SortedData | src/components/DataTable.tsx:29-37 | The displayed rows are a permutation of the input. With no truthy sort key they are the input itself, in input order. With a truthy key they are ordered by that field in the active direction. |
| DataTable.SortedDataMonotone | src/components/DataTable.tsx:29-35 | When the sort column holds one kind of value, the displayed rows are non-decreasing (ascending) or non-increasing (descending) across every pair of positions. |
| DataTable.ClickTwiceReversesOrder | src/components/DataTable.tsx:29-46 | One click on an inactive sortable column yields rows ordered ascending by it. A second click yields them descending. |
| DataTable.ToggleId | src/components/DataTable.tsx:49-54 | Toggling flips membership of exactly the clicked id. Every other id keeps its membership. |
| DataTable.SelectedRows | src/components/DataTable.tsx:57 | The filter keeps each record whose id is selected, with its full multiplicity, and drops all others. The kept records stay in input order (a subsequence). |
| DataTable.ToggleRow | src/components/DataTable.tsx:48-59 | A checkbox click flips that id only and keeps the sort directive. A payload exists exactly when a callback is present. It holds exactly the input records with a selected id, in input order. |
| DataTable.ToggleRowTwice | src/components/DataTable.tsx:48-55 | Clicking the same checkbox twice restores the selection state. |
| DataTable.SelectedRowsAll | src/components/DataTable.tsx:57 | Once every record's id is selected, the payload is the whole input list, in order. |
| DataTable.PayloadIgnoresSortDirective | src/components/DataTable.tsx:56-57 | The payload is taken from the unsorted input, so the sort directive cannot change it. |
| DataTable.ArrowFor | src/components/DataTable.tsx:76 | An arrow appears exactly on a sortable header whose key is the sort key. It points up exactly when ascending. |
| DataTable.Headers | src/components/DataTable.tsx:69-78 | There is one header per column, in column order, each with that column's title and arrow. |
| DataTable.Body | src/components/DataTable.tsx:82-99 | There is one body row per displayed record, in display order. A checkbox appears only when the table is selectable, and it is checked exactly when the record's id is selected. |
| DataTable.Render | src/components/DataTable.tsx:61-102 | The loading flag takes precedence: the loading message shows exactly when loading, even for non-empty data. The no-data message shows exactly when not loading and the data is empty. Otherwise the table has one header per column, with its title and arrow, and one row per record in sorted order. Each row has a checkbox only when selectable, checked exactly when its id is selected. |
| DataTable.TableShowsEveryRecord | src/components/DataTable.tsx:82-83 | The rendered table shows every input record exactly as often as it occurs in the input. |
| DataTable.EmptyKeyShowsArrowUnsorted | src/components/DataTable.tsx:76 | A sortable column keyed "" shows the arrow once clicked. Because `if (sortKey)` (line 29) treats "" as false, the rows stay in input order. |
| DataTable.SortByNameExample | src/components/DataTable.tsx:30-36 | Records {1, "A"} and {4, "v"} sort by name to [A, v] ascending and [v, A] descending. |
| DataTable.SampleDataFilteredToThree | src/components/DataTable.tsx:57 | Filtering the four sample records to selection {3} yields the record with id 3 alone. |
| DataTable.SelectOneThenThree | src/components/DataTable.tsx:48-55 | Clicking ids 1 and 3 from the initial state selects {1, 3}. |
| DataTable.DeselectAfterTwoSelections | src/components/DataTable.tsx:48-58 | Selecting 1 and 3 and then deselecting 1 leaves {3} selected. The callback then receives the input records with id 3. |
| DataTable.SelectionExample | src/components/DataTable.tsx:48-58 | On the four sample records, that sequence of clicks passes the record with id 3 alone. |
| InputField.OrDefault | src/components/InputField.tsx:42-44 | A prop that is given is used as is. A missing prop takes the default. |
| InputField.HelperMessage | src/components/InputField.tsx:72-74 | The helper paragraph appears exactly when the helper text is non-empty and the field is not invalid. It reads "loading..." while loading and the helper text otherwise. |
| InputField.ErrorMessage | src/components/InputField.tsx:75-77 | The error paragraph appears exactly when the field is invalid and the error message is non-empty. It shows that message. |
| InputField.Render | src/components/InputField.tsx:48-77 | The helper and error paragraphs are never both rendered. The input is masked exactly for a password field with visibility off. The show/hide button exists exactly for password fields, labelled "hide" when visible and "show" otherwise. The label appears only when non-empty. Value, placeholder and disabled pass through. Variant and size are the given props, or "outlined" and "md" when missing. |
| InputField.ClickShowHide | src/components/InputField.tsx:65 | Clicking show/hide flips visibility. |
| InputField.MessagesExclusive | src/components/InputField.tsx:72-77 | In every state and for all props, at most one of the helper and error paragraphs is rendered. |
| InputField.Defaults | src/components/InputField.tsx:42-44 | Unspecified type, variant and size render as an unmasked text input with no toggle, outlined, medium size. |
| InputField.PasswordStartsMasked | src/components/InputField.tsx:46-58 | A freshly mounted password field is masked and its button reads "show". |
| InputField.ShowHideFlipsMasking | src/components/InputField.tsx:54-68 | On a password field, the show/hide click swaps masking and the button label but leaves the value unchanged. |
| InputField.ShowHideTwice | src/components/InputField.tsx:65 | Two clicks on show/hide restore the visibility state. |
| InputField.TextFieldNeverMasked | src/components/InputField.tsx:48-62 | A text field is never masked and has no show/hide button, whatever the visibility state. |

## Left out

- `src/App.tsx`: static sample data, layout and a boolean theme toggle. Its sample records appear only as the worked examples above.
- React mechanics: hook scheduling, re-rendering, DOM events, and the `onChange` handler passed to the input. Handlers are modelled as transitions applied to the current state.
- The `onRowSelect` callback itself: it is foreign code. The model returns the payload it would receive.
- Styling: the Tailwind class strings, the `sizeClasses`/`variantClasses` lookups, and the visual classes for the invalid, disabled and loading states. Variant and size are kept only as resolved values.
- Cell text: `String(row[col.dataIndex])` relies on JavaScript's coercion of arbitrary values. `Column.dataIndex` is carried but never read.
- JavaScript numbers are modelled as integers: there are no fractions, NaN or infinities.
- Field values are numbers, strings or `undefined`. Booleans, `null` and objects are not modelled.
- Comparing a number with a string is modelled as false both ways. JavaScript converts numeric strings (`"2" > 1`), which the model does not.
- Strings compare by Unicode code point rather than UTF-16 code unit. The two orders differ only for characters outside the Basic Multilingual Plane.
- Sort stability and the engine's algorithm: the model's sort is an insertion sort. Only its ordered-permutation contract is claimed.
- RowSort.OrderedHomogeneousIsSorted: the pairwise order needs every record to hold the same kind of value under the key. With mixed kinds (numbers and `undefined`, say) the comparator is inconsistent, and ECMAScript leaves the order of `sort` implementation-defined.
- DataTable.SortedDataMonotone: requires a column with one kind of value, for the same reason.
- DataTable.SortedData: on a column mixing kinds, the neighbour order it promises is a property of the model's insertion sort, not of the program. For example `[1, undefined, 0]` stays in that order ascending. The engine may return any order there.
- RowSort.SortBy: the same holds for the sort itself. Its neighbour order on mixed-kind columns comes from the insertion sort, not from the program.
- Uniqueness of record ids and column keys is assumed by the component but neither required nor used. Records sharing an id are selected and deselected together.
