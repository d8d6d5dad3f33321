# Host detail table mappers, modelled in Dafny

The host details view of the inventory console shows disks, installed
products, network interfaces, repositories, plain value lists and
"workload" records as tables. A set of mapper functions builds those
tables. Each mapper takes the list of records the inventory API returned
and produces a table description for a generic table widget. There are three
parts to a description:

- ordered column headers, each of which may be sortable;
- one row of cells per record;
- for some tables, filter descriptors placed under the columns.

The mappers are pure functions, so this project models them as Dafny
functions over sequences and proves properties of them as lemmas.

The project has two modules:

- `JsValues` (`jsvalues.dfy`): the parts of JavaScript's value semantics the
  mappers use. Values are `undefined`, `null`, booleans, integers, strings,
  arrays and objects. An object is an ordered list of properties. The module
  also models three library routines: `Object.entries`, `Array.prototype.join`
  and `Array.prototype.map`. No cast or call in the mappers can fail except
  one: reading a property of `null` or `undefined`. That read throws a
  `TypeError`, and the model returns it as the `Completion.TypeError` value.
- `DataMapper` (`datamapper.dfy`): the mappers. Each returns a `Table`:
  - `columns`: title and sortable flag;
  - `rows`: cells;
  - `filters`: optional;
  - `expandable`.

  The icons and tooltips of the two lookup tables become the `Tag`
  enumeration: `Up`, `Down`, `Unknown`, `Enabled` and `Disabled`.

Every mapper except `generalMapper` throws a `TypeError` when a record in
its list is `null` or `undefined`: it reads a property of the record
(dataMapper.js lines 57, 89, 121, 154 and 231/233). `diskMapper` also throws
when an entry among a disk's mount options is `null` or `undefined`, because
it reads that entry's `value` (line 65). `generalMapper` reads no property
and never throws. Each mapper's contract states exactly when it completes
normally.

## Model

| member | source | states |
|---|---|---|
| `JsValues.MapOrThrow` | src/components/GeneralInfo/dataMapper/dataMapper.js:57 | `.map` with a callback that may throw completes normally exactly when the callback does for every element. The result then has one element per input, each the callback's value, in order. |
| `JsValues.Lookup` | src/components/GeneralInfo/dataMapper/dataMapper.js:233 | Reading `item[key]` gives the value of the first property with that key, or undefined when there is none. |
| `JsValues.EntriesAgreeWithGet` | src/components/GeneralInfo/dataMapper/dataMapper.js:64 | Each `Object.entries` pair is the value that reading its key gives. This holds for objects with distinct keys, for arrays and for strings. |
| `JsValues.Or` | src/components/GeneralInfo/dataMapper/dataMapper.js:65 | `x \|\| y` is truthy exactly when one of its operands is. It is x itself when x is truthy, and y when x is falsy. |
| `JsValues.Get` | src/components/GeneralInfo/dataMapper/dataMapper.js:121-131 | Reading `x[key]`: an array or a string gives its length for `"length"`, and a boolean or a number gives undefined. |
| `JsValues.GetElement` | src/components/GeneralInfo/dataMapper/dataMapper.js:233 | Reading an array or a string at any other key gives undefined or one of its elements (for a string, a one-character string of one of its characters). |
| `JsValues.LookupDistinct` | src/components/GeneralInfo/dataMapper/dataMapper.js:154-163 | In an object whose keys are distinct, reading a property's key gives that property's value. |
| `JsValues.GetIndex` | src/components/GeneralInfo/dataMapper/dataMapper.js:233 | Reading an array at the numeral of an index gives the element at that index. |
| `JsValues.Entries` | src/components/GeneralInfo/dataMapper/dataMapper.js:64 | `Object.entries` of an object is its own properties in order. For an array or a string there is one entry per index, keyed by the index's numeral, holding the element (or the one-character string). A boolean or a number has no entries. |
| `JsValues.EntriesDistinctKeys` | src/components/GeneralInfo/dataMapper/dataMapper.js:64 | The entries of an array or a string have pairwise distinct keys. |
| `JsValues.ToString` | src/components/GeneralInfo/dataMapper/dataMapper.js:159-163 | The string form used by template literals and property keys. Booleans give `"true"` and `"false"`. An empty array gives `""`. A one-element array gives its element's string form, or `""` for a null or undefined element. |
| `JsValues.Join` | src/components/GeneralInfo/dataMapper/dataMapper.js:224 | `.join(sep)` of no elements is `""`. Of one element it is that element's string form, with no separator, and `""` for null or undefined. |
| `JsValues.JoinAppend` | src/components/GeneralInfo/dataMapper/dataMapper.js:224 | Joining two non-empty arrays end to end is their joins with one separator between them. |
| `DataMapper.TooltipsDistinct` | src/components/GeneralInfo/dataMapper/dataMapper.js:12-36 | Each of the five icons has its own tooltip text. |
| `DataMapper.StatusTag` | src/components/GeneralInfo/dataMapper/dataMapper.js:12-23 | `statusHelper` lookup with the fallback: Up exactly when the key's string form is `"UP"`, Down exactly when it is `"DOWN"`, otherwise Unknown. It never gives an enabled/disabled tag. |
| `DataMapper.StatusFallback` | src/components/GeneralInfo/dataMapper/dataMapper.js:91-95 | A status string gives Up for `"UP"`, Down for `"DOWN"` and Unknown for anything else. A missing status and `"bogus"` both give Unknown. |
| `DataMapper.EnabledTag` | src/components/GeneralInfo/dataMapper/dataMapper.js:158 | `enabledHelper[Boolean(x)]` is Enabled exactly when x is truthy, and Disabled exactly when it is falsy. |
| `DataMapper.UnwrapKey` | src/components/GeneralInfo/dataMapper/dataMapper.js:58 | `(x && x[key]) \|\| x` is truthy exactly when x is. |
| `DataMapper.Unwrap` | src/components/GeneralInfo/dataMapper/dataMapper.js:70-73 | `(x && x.value) \|\| x` is x when x is falsy. For a truthy x it is `x.value` when that is truthy, and x itself otherwise. |
| `DataMapper.UnwrapBareOrWrapped` | src/components/GeneralInfo/dataMapper/dataMapper.js:70-73 | A bare scalar unwraps to itself. `{value: x}` unwraps to x exactly when x is truthy. A wrapper of a falsy value unwraps to the wrapper itself. |
| `DataMapper.OptionValueIsUnwrap` | src/components/GeneralInfo/dataMapper/dataMapper.js:65 | For an option that is not null/undefined, `option.value \|\| option` gives the same value as the unwrapping of the device fields. |
| `DataMapper.OptionText` | src/components/GeneralInfo/dataMapper/dataMapper.js:65 | An option entry is the text `key=` followed by its unwrapped value. It throws exactly when the option value is null/undefined. |
| `DataMapper.OptionsSource` | src/components/GeneralInfo/dataMapper/dataMapper.js:58-64 | The value whose entries are listed is truthy. It is the options themselves when they have no truthy `options` or `value` property. It is `options.options` when that is a truthy scalar. |
| `DataMapper.DiskDetail` | src/components/GeneralInfo/dataMapper/dataMapper.js:58-66 | Falsy options leave the child as that falsy value. Otherwise the mapper completes exactly when no option entry is null/undefined, and the child is the `key=value` pieces joined by `",  "`. |
| `DataMapper.RenderedText` | src/components/GeneralInfo/dataMapper/dataMapper.js:62-67 | React renders null, undefined and booleans as no text, a string as itself, and a number as its (non-empty) digits. |
| `DataMapper.DiskDetailWithoutOptions` | src/components/GeneralInfo/dataMapper/dataMapper.js:63-66 | Absent options (and the other falsy values) render as empty text. The exception is the number 0, whose digit React renders. |
| `DataMapper.DiskOptionsMayBeWrapped` | src/components/GeneralInfo/dataMapper/dataMapper.js:58-64 | For truthy options x that have no truthy `options` or `value` property of their own, x given bare, as `{options: x}` or as `{value: x}` yields the same detail. Without that condition the forms can differ: `{value: {a: 1}}` gives `"a=1"` bare. |
| `DataMapper.DiskDetailExample` | src/components/GeneralInfo/dataMapper/dataMapper.js:63-66 | `{a: {value: 1}, b: 2}` renders as `"a=1,  b=2"`. |
| `DataMapper.DiskCells` | src/components/GeneralInfo/dataMapper/dataMapper.js:69-74 | A disk row has one plain cell per disk column. The label cell is the raw label. The device, mount point and type cells are each truthy exactly when the record's field is. |
| `DataMapper.DiskRow` | src/components/GeneralInfo/dataMapper/dataMapper.js:57-75 | A disk row completes exactly when the device is not null/undefined and its options detail completes. The row is closed, holds that detail and has the four cells. |
| `DataMapper.DiskMapper` | src/components/GeneralInfo/dataMapper/dataMapper.js:38-78 | The table has four sortable columns and is expandable, with one rectangular row per device. It throws exactly when some device, or one of its option entries, is null/undefined. |
| `DataMapper.DiskFieldsMayBeWrapped` | src/components/GeneralInfo/dataMapper/dataMapper.js:69-74 | Device, mount point and type may each arrive bare or as `{value: x}`: for truthy scalars the row is the same. |
| `DataMapper.DiskLabelIsNotUnwrapped` | src/components/GeneralInfo/dataMapper/dataMapper.js:71 | When the options detail completes, the row completes and a wrapped label stays the wrapper in the label cell. |
| `DataMapper.ProductRow` | src/components/GeneralInfo/dataMapper/dataMapper.js:88-97 | A product row throws exactly when the product is null/undefined. Otherwise it has two cells: the raw name, then a status icon with no sort value, which is Up exactly for `"UP"`, Down exactly for `"DOWN"`, and otherwise Unknown. |
| `DataMapper.ProductsMapper` | src/components/GeneralInfo/dataMapper/dataMapper.js:80-98 | The table has columns Name (sortable) and Status, with one two-cell row per product: the name, then the status tag. It throws exactly when some product is null/undefined. |
| `DataMapper.InterfaceRow` | src/components/GeneralInfo/dataMapper/dataMapper.js:120-132 | An interface row throws exactly when the item is null/undefined. Otherwise it has five cells: MAC address, MTU and name as read, a state icon (Up exactly for `"UP"`, Down exactly for `"DOWN"`, otherwise Unknown), then the type. |
| `DataMapper.InterfaceMapper` | src/components/GeneralInfo/dataMapper/dataMapper.js:100-133 | The table has five columns (State not sortable), with one five-cell row per interface; the state cell is the status tag. It throws exactly when some item is null/undefined. |
| `DataMapper.RepositoryRow` | src/components/GeneralInfo/dataMapper/dataMapper.js:152-165 | A row has three cells. The name cell is the name with itself as sort value. The Enabled and GPG-check cells are Enabled exactly when the raw field is truthy, and their sort value is the raw field's string form. |
| `DataMapper.RepositoriesMapper` | src/components/GeneralInfo/dataMapper/dataMapper.js:135-183 | There are three sortable columns and \|enabled\| + \|disabled\| rectangular rows. Row i is enabled[i]'s row and row \|enabled\|+j is disabled[j]'s. The filters are text, checkbox and checkbox, each checkbox offering `"true"`/`"false"`. The mapper throws exactly when some repository is null/undefined. |
| `DataMapper.RepositoriesOrder` | src/components/GeneralInfo/dataMapper/dataMapper.js:152 | When no repository is null/undefined, the mapper completes. Its rows are then the enabled list's rows followed by the disabled list's, each in input order. |
| `DataMapper.RepositoryRecordRow` | src/components/GeneralInfo/dataMapper/dataMapper.js:152-165 | A repository record `{name, enabled, gpgcheck}` gives the row of its name with itself as sort value, then the two icons with the raw fields' string forms as sort values. |
| `DataMapper.RepositoriesExample` | src/components/GeneralInfo/dataMapper/dataMapper.js:157-164 | Input r1 (enabled, gpgcheck 0) with r2 (disabled) gives the order r1, r2. r1's Enabled cell is Enabled with sort value `"true"`; its GPG cell is Disabled with sort value `"0"`. |
| `DataMapper.GeneralMapper` | src/components/GeneralInfo/dataMapper/dataMapper.js:185-194 | One sortable column with the caller's title, and one text filter. Row i is the one-cell row holding the i-th item. The table is not expandable, and the mapper never throws. |
| `DataMapper.GeneralColumnIsData` | src/components/GeneralInfo/dataMapper/dataMapper.js:192 | Reading the single column back gives the input list. |
| `DataMapper.UnderscoresToSpaces` | src/components/GeneralInfo/dataMapper/dataMapper.js:203 | Every underscore becomes a space and every other character is kept, so the length stays and no underscore is left. |
| `DataMapper.CapitalizeMatches` | src/components/GeneralInfo/dataMapper/dataMapper.js:204 | The regular-expression replacement keeps the length. |
| `DataMapper.CapitalizeMatchesAt` | src/components/GeneralInfo/dataMapper/dataMapper.js:204 | The scan upper-cases position i exactly when it holds a word character, no earlier word character precedes it in its run of non-white-space, and (when the scan starts inside a match) white space precedes it. |
| `DataMapper.TitleCase` | src/components/GeneralInfo/dataMapper/dataMapper.js:201-202 | Title-casing keeps the length. |
| `DataMapper.TitleCaseSpec` | src/components/GeneralInfo/dataMapper/dataMapper.js:201-204 | A character is upper-cased exactly when it is the first word character of its run of non-white-space; every other character is unchanged. The result has the input's length and no underscores. |
| `DataMapper.UnderscoreExample` | src/components/GeneralInfo/dataMapper/dataMapper.js:203 | `"cpu_count"` becomes `"cpu count"`. |
| `DataMapper.CapitalizeWordExample` | src/components/GeneralInfo/dataMapper/dataMapper.js:204 | A word the scan meets outside a match, `"count"`, becomes `"Count"`. |
| `DataMapper.CapitalizeExample` | src/components/GeneralInfo/dataMapper/dataMapper.js:204 | `"cpu count"` becomes `"Cpu Count"`: the space ends the first match and the second word starts a new one. |
| `DataMapper.TitleCaseExample` | src/components/GeneralInfo/dataMapper/dataMapper.js:220 | `"cpu_count"` becomes `"Cpu Count"`. |
| `DataMapper.WorkloadColumns` | src/components/GeneralInfo/dataMapper/dataMapper.js:208-221 | The caller's titles are used when given and equal in number to the keys. Otherwise no keys give one `"Value"` column, and keys give one title-cased column each. The column count is 1 when there are no keys and the titles are not `[]`, and \|fieldKeys\| otherwise. |
| `DataMapper.FormatValue` | src/components/GeneralInfo/dataMapper/dataMapper.js:223-227 | A formatted cell is never an array, null or undefined. Arrays become their elements joined by `", "`, null/undefined become `""`, and every other value passes through. |
| `DataMapper.FormatValueExample` | src/components/GeneralInfo/dataMapper/dataMapper.js:224-225 | `["a", "b"]` formats as `"a, b"` and null as `""`. |
| `DataMapper.WorkloadRow` | src/components/GeneralInfo/dataMapper/dataMapper.js:229-234 | With no keys a row is `[item.version]`. Otherwise it holds one formatted value per key, in key order. It throws exactly when the item is null/undefined. |
| `DataMapper.WorkloadsDataMapper` | src/components/GeneralInfo/dataMapper/dataMapper.js:196-241 | There is one row per record and one text filter. Every row has one cell per column, unless `fieldKeys = []`, `columnTitles = []` and there is a record (zero columns, one-cell rows). The mapper throws exactly when some record is null/undefined. |
| `DataMapper.WorkloadsSingleColumnExample` | src/components/GeneralInfo/dataMapper/dataMapper.js:230-231 | No keys give a single `"Value"` column, and each row is the record's version whatever else the record holds. |
| `DataMapper.WorkloadsKeyedExample` | src/components/GeneralInfo/dataMapper/dataMapper.js:233 | Key `cpu_count` with no titles gives the column `"Cpu Count"`, and the number 4 passes through unchanged. |

## Left out

- React, JSX and PatternFly (src/components/GeneralInfo/dataMapper/dataMapper.js:1-36). Tooltip elements, icon components and class names become the `Tag` enumeration and its tooltip texts. The `sortable` transform becomes a boolean on the column. Rendering is foreign library code.
- Disk row children are modelled as the value of the `{...}` expression. How React renders one is modelled only for the primitive values that occur there.
- Numbers are unbounded integers. JavaScript numbers are doubles: integers above 2^53 lose precision, and from 1e21 up a template literal prints exponent form (`"1e+21"`). `IntToString` prints every digit instead. Fractions, `NaN`, infinities and `-0`, and how they convert to strings, are not modelled.
- Values are only `undefined`, `null`, booleans, numbers, strings, arrays and plain objects. Symbols, functions, getters, sparse arrays and proxies are not modelled.
- An object is modelled as its own properties, in enumeration order. The order JavaScript gives integer-like keys is taken as already applied.
- Inherited properties (`toString`, `constructor`, ... from the prototypes) are not modelled. Reading such a key gives undefined, and the same holds in the `statusHelper` and `enabledHelper` tables. In the source, a status of `"constructor"` would therefore find a truthy non-icon entry, not the Unknown fallback.
- Strings are sequences of Unicode scalar values, not UTF-16 code units. A string's `length` and indices differ from JavaScript's for characters outside the Basic Multilingual Plane.
- Default arguments are not modelled, because the model takes the lists directly. The source treats `diskMapper()` as `diskMapper([])`, defaults `generalMapper`'s title to `''`, and defaults `workloadsDataMapper`'s data and keys to `[]`.
- Non-array or null arguments are not modelled. These include a repositories argument without `enabled` or `disabled` (spreading undefined throws), a `columnTitles` of `null` (reading `length` throws), non-string field keys and non-string titles. An absent `columnTitles` is `None`.
- The repositories mapper's GPG-check filter reuses the "Is enabled" / "Not enabled" labels. This looks like a copy-and-paste slip, but it is modelled as written, since the intent is unknown.
- src/components/InventoryHostStaleness/HostStalenessCard.js is not part of this model. It is React state, network calls and notification dispatch. Its key filtering depends on conversion helpers and key lists defined in files not shown.
- src/components/InventoryGroupDetail/GroupDetailHeader.js is not part of this model. It is permission hooks, a feature flag, a store selector and modal toggles.
- src/routes/Systems/components/SystemsTable/SystemsTable.js is not part of this model. It passes properties to a table-state library and to helpers defined elsewhere.
