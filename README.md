# Food carb search: catalog model

A model of the food catalog of the food-carb-search page. Its browser
plumbing is set aside. The catalog has five parts:

- a read-only built-in list of food records (name, carbs, unit);
- a user list, persisted under the storage key `userFoods`;
- the merged view: built-in records first, then the user's;
- a case-insensitive substring search over record names, whose matches are
  shown one line each;
- the table's delete, edit and add handlers. They change only the user list,
  and only when the merged index lies past the built-in records.

Modules:

- `FoodText` (`text.dfy`) models `trim`, `toLowerCase` and `includes`.
- `FoodCatalog` (`catalog.dfy`) holds the record datatypes and the functions
  for the merged view, the ownership test, the search and the result lines.
- `UserFoodStore` (`store.dfy`) holds the user list as the class `UserFoods`.
  Its methods `Delete`, `EditField` and `Add` each read the stored list,
  change a copy, and write it back.

What comes from outside is passed in as a parameter:

- the built-in list (`base`), which the page fetches from `data/foods.json`;
- the runtime's string-to-number conversion `Number(...)` (`num`);
- the runtime's number-to-text rendering (`show`).

Behaviour of the code that the model keeps as it is:

- A stored value that is not valid JSON is not recovered. `JSON.parse` at
  scripts/main.js:12 has no `try`, so it would throw. The model only holds
  well-formed lists. An absent key does read as the empty list (`|| '[]'`).
- The delete and edit handlers check only that the index is not a built-in
  one (scripts/main.js:95, 112). They never check that it lies within the
  user list.
  - Editing past the end: the assignment at scripts/main.js:113 indexes
    `undefined` and throws before `setItem`. The model returns
    `Refused(NoSuchRecord)` and writes nothing.
  - Deleting past the end: `splice` at scripts/main.js:96 removes nothing,
    and the unchanged list is still written back.
- The add handler requires a name (its message 食品名と糖質量は必須です,
  scripts/main.js:127-128). The edit handler stores any text in the name
  column, untrimmed, including a blank name (scripts/main.js:113). See
  `NamesPresentByAddNotEdit`.

## Model

| member | source | states |
|---|---|---|
| `FoodCatalog.Merged` | scripts/main.js:9-14 | the merged list has length &#124;base&#124; + &#124;overlay&#124;; index i < &#124;base&#124; is base[i], and index &#124;base&#124; + j is overlay[j] |
| `FoodCatalog.IsUser` | scripts/main.js:67 | definition of the ownership test `idx >= foods.length - userFoods.length` (also at lines 95 and 112); its properties are in OwnershipByPosition and EditableRows |
| `FoodCatalog.OwnershipByPosition` | scripts/main.js:67 | `idx >= foods.length - userFoods.length` holds exactly when idx >= &#124;base&#124;; below the merged length, idx - &#124;base&#124; is then a valid user index naming the record shown at idx |
| `FoodCatalog.EditableRows` | scripts/main.js:66-73 | a table row is editable and gets a delete button exactly when its index is at least &#124;base&#124; |
| `FoodText.LeadingSpaces` | scripts/main.js:18 | counts the white-space prefix: everything before it is white space and the next character is not |
| `FoodText.TrailingSpaces` | scripts/main.js:18 | counts the white-space suffix, symmetrically |
| `FoodText.Trim` | scripts/main.js:18 | the result is a contiguous slice of the input; everything cut away is white space; the result neither starts nor ends with white space |
| `FoodText.TrimEmptyIff` | scripts/main.js:19 | the trimmed query is empty exactly when the query is all white space |
| `FoodText.TrimUnpadded` | scripts/main.js:18 | a string without white space at either end is its own trim |
| `FoodText.TrimIdempotent` | scripts/main.js:18 | trimming twice is the same as trimming once |
| `FoodCatalog.SearchKey` | scripts/main.js:18 | definition of the search key, the query trimmed then lowercased; its properties are in Trim, TrimEmptyIff, Lower and SearchBlankQuery |
| `FoodText.Lower` | scripts/main.js:18 | same length; each character is lowercased (ASCII letters) |
| `FoodText.LowerIdempotent` | scripts/main.js:24 | a lowercased string has no upper-case letter; lowercasing it again changes nothing |
| `FoodText.Includes` | scripts/main.js:24 | definition of `includes`, trying every start position from the left; its properties are in IncludesIff |
| `FoodText.IncludesIff` | scripts/main.js:24 | `includes` holds exactly when the key occurs at some position of the name, in both directions |
| `FoodCatalog.Filter` | scripts/main.js:24 | every kept record comes from the input and its lowercased name contains the key; the result is no longer than the input |
| `FoodCatalog.FilterAppend` | scripts/main.js:24 | filtering a concatenation is the concatenation of the filtered parts, so the input order is kept |
| `FoodCatalog.FilterSingle` | scripts/main.js:24 | a single record is kept exactly when it matches |
| `FoodCatalog.FilterCount` | scripts/main.js:24 | each matching record is kept as many times as it occurs; each non-matching record is dropped |
| `FoodCatalog.FilterAllMatch` | scripts/main.js:24 | when every record matches, the filter returns its input unchanged |
| `FoodCatalog.Search` | scripts/main.js:18-24 | an empty key returns nothing; every returned record is in the merged view and its lowercased name contains the key |
| `FoodCatalog.SearchBlankQuery` | scripts/main.js:18-22 | an all-white-space query finds nothing, whatever the two lists hold |
| `FoodCatalog.SearchSpec` | scripts/main.js:18-24 | with a non-empty key: soundness and completeness (a record is returned exactly when it is in the merged view and matches); counts are kept; built-in matches come first, then user matches, each in order |
| `FoodCatalog.CarbsText` | scripts/main.js:27 | 未定義です is shown exactly for carbs that are undefined, null or ""; any other value is shown as its text followed by `g` |
| `FoodCatalog.Grams` | scripts/main.js:27 | an amount followed by `g` ends in `g`, keeps the amount as its prefix, and never equals 未定義です |
| `FoodCatalog.UnitText` | scripts/main.js:28-29 | the unit part of a line is empty exactly when the unit is empty; otherwise it is the unit in parentheses (ResultLineShape) |
| `FoodCatalog.ResultLine` | scripts/main.js:29 | definition of one result line; its properties are in ResultLineShape |
| `FoodCatalog.ResultLineShape` | scripts/main.js:27-29 | a result line starts with `<div>`, the record's name and the label `：糖質量 `; the carbs text follows right after (未定義です when carbs are missing, otherwise the amount followed by `g`, by CarbsText); it ends with `(unit)` exactly when the unit is non-empty |
| `FoodCatalog.SearchDisplay` | scripts/main.js:17-38 | the result area is cleared exactly for an empty key; it shows "not found" exactly when the key is non-empty and nothing matches; otherwise it shows one line per match, in match order |
| `UserFoodStore.RemoveAt` | scripts/main.js:96 | `splice(k, 1)`: the list shrinks by one exactly when k names an element; a position past the end leaves the list unchanged; element-wise properties are in RemoveAtSpec |
| `UserFoodStore.RemoveAtSpec` | scripts/main.js:96 | splicing out an existing position shrinks the list by one; elements before it stay; elements after it shift down by one; the multiset loses exactly that element |
| `UserFoodStore.RemoveAppended` | scripts/main.js:96 | splicing out the last-appended position restores the list as it was before the append |
| `UserFoodStore.Coerce` | scripts/main.js:113 | definition of the stored value: `Number(input)` for the carbs column, the text itself otherwise; used by SetField |
| `UserFoodStore.SetField` | scripts/main.js:113 | the edited field now holds the coerced input (the number for carbs, the text otherwise); every other field is unchanged |
| `UserFoodStore.NewFood` | scripts/main.js:124-132 | the record `{ name, carbs: Number(carbs), unit }` has no white space around its name or unit; its carbs are always a number; when the add check passes, its name is non-empty and its carbs are not shown as 未定義です |
| `UserFoodStore.Accepted` | scripts/main.js:127 | definition of the add check, both trimmed inputs non-empty; its properties are in AcceptedIff |
| `UserFoodStore.AcceptedIff` | scripts/main.js:127 | the add check fails exactly when the name or the carbs input is all white space |
| `UserFoodStore.NamesPresentByAddNotEdit` | scripts/main.js:113 | an accepted add keeps every user name non-blank; a single name edit can make it blank |
| `UserFoodStore.AppendedIsLast` | scripts/main.js:132 | after an append the merged view grows by one, its last element is the new record, and its earlier elements are unchanged |
| `UserFoodStore.UserFoods.Foods` | scripts/main.js:9-14 | the store's merged view is the built-in list followed by the stored user list |
| `UserFoodStore.UserFoods.constructor` | scripts/main.js:12 | the store holds the value found under the key |
| `UserFoodStore.UserFoods.Delete` | scripts/main.js:91-102 | a built-in index is refused and nothing is written; otherwise exactly the record at idx - &#124;base&#124; is removed (the rest keep their order and values) and the list is written back; an index past the end writes the list back unchanged |
| `UserFoodStore.UserFoods.EditField` | scripts/main.js:107-119 | a built-in index is refused and an index past the user list fails, both without writing; otherwise only the chosen field of user record idx - &#124;base&#124; changes, carbs by numeric conversion |
| `UserFoodStore.UserFoods.Add` | scripts/main.js:123-135 | with a blank trimmed name or carbs text, nothing is written; otherwise exactly the new record is appended to the user list and the list is written back |
| `UserFoodStore.AddThenDelete` | scripts/main.js:91-135 | an add followed by a delete of the last merged index leaves the user list, and so the merged view's length, as before |

## Left out

- DOM and event wiring are not modelled: element lookup, listeners, building
  the table's HTML, `alert`, and re-rendering after a change. These are
  presentation only.
- `fetch('./data/foods.json')` and the async flow are not modelled. The
  built-in list is a parameter.
- `localStorage` and JSON are not modelled. The stored value is the field
  `stored`, and it always holds a well-formed list. A corrupt value, on which
  `JSON.parse` throws, is not represented.
- `Number(...)` is abstract. It is the parameter `num`, and numbers are
  integers: there is no NaN and there are no fractions. Rendering a number as
  text is the parameter `show`.
- FoodText.Lower: lowercases ASCII letters only. Locale- and Unicode-aware
  lowering (full-width Latin letters, for one) is not modelled.
- Restoring the input widget's old value after a refused edit is not
  modelled. It only touches the widget.
- The add row's own inputs also fire the edit handler. There the index is
  `Number(undefined)`, which is NaN, and the field is undefined. Indices are
  modelled as integers, so this case is not represented.
- Records are assumed to have a string `name`. A record without one would
  make the search throw. A non-string `unit` is not modelled either: an
  absent unit is the empty string.
- `carbs` values other than absent, `null`, a string or a number (a boolean,
  an array or an object, which the template would render as e.g. `trueg`)
  are not represented.
- Record text goes into the result HTML unescaped. The model treats lines as
  plain strings.
