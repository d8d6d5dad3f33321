/** The table mappers of the host details view: each turns a list of loosely
    typed API records into a table description (column headers, one row of
    cells per record, and for some tables filter descriptors) that a generic
    table widget renders. */
module DataMapper {
  import opened JsValues

  // ---------------------------------------------------------------------------
  // Table descriptions

  /** The icon-with-tooltip elements of the two lookup tables, and the icon the
      service mappers show for a status the table does not know. */
  datatype Tag = Up | Down | Unknown | Enabled | Disabled

  /** The tooltip text that goes with each icon. */
  function Tooltip(t: Tag): string {
    match t
    case Up => "Service is running"
    case Down => "Service has stopped"
    case Unknown => "Unknown service status"
    case Enabled => "Source enabled"
    case Disabled => "Source disabled"
  }

  /** Each icon has its own tooltip. */
  lemma TooltipsDistinct(a: Tag, b: Tag)
    requires a != b
    ensures Tooltip(a) != Tooltip(b)
  {
  }

  /** A column header; `sortable` stands for the `sortable` transform. */
  datatype Column = Column(title: string, sortable: bool)

  datatype Cell =
    | Value(v: JsValue)                              // a bare value
    | Titled(title: JsValue, sortValue: JsValue)     // `{ title, sortValue }`
    | Icon(tag: Tag, sortText: Option<string>)       // `{ title: <icon>, sortValue? }`

  datatype Row =
    | Cells(cells: seq<Cell>)                                  // a row given as its array of cells
    | Expandable(isOpen: bool, child: JsValue, cells: seq<Cell>)  // `{ isOpen, child, cells }`

  datatype FilterOption = FilterOption(optionLabel: string, value: string)

  datatype Filter = TextFilter | CheckboxFilter(options: seq<FilterOption>)

  /** `{ cells, rows, filters?, expandable? }`; a missing `expandable` reads as false. */
  datatype Table = Table(columns: seq<Column>, rows: seq<Row>, filters: Option<seq<Filter>>, expandable: bool)

  /** Every row has exactly one cell per column. */
  predicate Rectangular(t: Table) {
    forall i :: 0 <= i < |t.rows| ==> |t.rows[i].cells| == |t.columns|
  }

  // ---------------------------------------------------------------------------
  // Lookup tables and the maybe-wrapped field convention

  /** `statusHelper[status]` with the Unknown icon in place of a missing entry.
      The property key is the string form of the status. */
  function StatusTag(status: JsValue): (t: Tag)
    ensures t == Up <==> ToString(status) == "UP"
    ensures t == Down <==> ToString(status) == "DOWN"
    ensures t != Enabled && t != Disabled
  {
    var key := ToString(status);
    if key == "UP" then Up else if key == "DOWN" then Down else Unknown
  }

  /** `enabledHelper[Boolean(flag)]`: the key is "true" or "false". */
  function EnabledTag(flag: JsValue): (t: Tag)
    ensures t == Enabled <==> Truthy(flag)
    ensures t == Disabled <==> !Truthy(flag)
  {
    if ToString(Bool(Truthy(flag))) == "true" then Enabled else Disabled
  }

  /** `(x && x[key]) || x`. */
  function UnwrapKey(x: JsValue, key: string): (r: JsValue)
    ensures Truthy(r) <==> Truthy(x)
  {
    if Truthy(x) then Or(Get(x, key), x) else x
  }

  /** `(x && x.value) || x`: a field that may arrive as `{ value: x }`. */
  function Unwrap(x: JsValue): (r: JsValue)
    ensures !Truthy(x) ==> r == x
    ensures Truthy(x) && Truthy(Get(x, "value")) ==> r == Get(x, "value")
    ensures Truthy(x) && !Truthy(Get(x, "value")) ==> r == x
  {
    UnwrapKey(x, "value")
  }

  /** `{ value: x }`. */
  function Wrap(x: JsValue): JsValue {
    Obj([Property("value", x)])
  }

  /** A boolean, number or string. */
  predicate IsScalar(x: JsValue) {
    x.Bool? || x.Num? || x.Str?
  }

  /** A numeral is never the key "value", "options" or "length". */
  lemma NotAnIndexKey(key: string, n: nat)
    requires |key| > 0 && !('0' <= key[0] <= '9')
    ensures IndexOfKey(n, key, 0).None?
  {
  }

  /** A scalar has no `value` property, so it reads as itself. */
  lemma ScalarHasNoValue(x: JsValue)
    requires IsScalar(x)
    ensures Get(x, "value") == Undefined
  {
    if x.Str? {
      NotAnIndexKey("value", |x.s|);
    }
  }

  /** A bare scalar and the same scalar wrapped as `{ value: x }` unwrap to the
      same thing exactly when the scalar is truthy; a wrapper of a falsy value
      unwraps to the wrapper itself. */
  lemma {:induction false} UnwrapBareOrWrapped(x: JsValue)
    requires IsScalar(x)
    ensures Unwrap(x) == x
    ensures Unwrap(Wrap(x)) == x <==> Truthy(x)
    ensures !Truthy(x) ==> Unwrap(Wrap(x)) == Wrap(x)
  {
    ScalarHasNoValue(x);
    assert Get(Wrap(x), "value") == x;
  }

  /** `option.value || option`, for an option that is not null or undefined, is
      the same unwrapping as the other fields get. */
  lemma {:induction false} OptionValueIsUnwrap(x: JsValue)
    requires !Nullish(x)
    ensures Or(Get(x, "value"), x) == Unwrap(x)
  {
    if !Truthy(x) {
      ScalarHasNoValue(x);
    }
  }

  // ---------------------------------------------------------------------------
  // diskMapper

  /** One `key=value` piece of the mount options text; reading `.value` of a
      null or undefined option throws. */
  function OptionText(entry: Property): (r: Completion<string>)
    ensures r.Normal? <==> !Nullish(entry.val)
    ensures r.Normal? ==> r.value == entry.key + "=" + ToString(Unwrap(entry.val))
  {
    if Nullish(entry.val) then TypeError
    else
      OptionValueIsUnwrap(entry.val);
      Normal(entry.key + "=" + ToString(Or(Get(entry.val, "value"), entry.val)))
  }

  /** The options an options field stands for: `{ options: ... }` and
      `{ value: ... }` are both unwrapped. */
  function OptionsSource(options: JsValue): (r: JsValue)
    requires Truthy(UnwrapKey(options, "options"))
    ensures Truthy(r)
    ensures !Truthy(Get(options, "options")) && !Truthy(Get(options, "value")) ==> r == options
    ensures IsScalar(Get(options, "options")) && Truthy(Get(options, "options")) ==> r == Get(options, "options")
  {
    var calculated := UnwrapKey(options, "options");
    Or(Get(calculated, "value"), calculated)
  }

  /** The `key=value` pieces of the options, each option value unwrapped. */
  function UnwrappedPairs(es: seq<Property>): (r: seq<string>)
    ensures |r| == |es|
    ensures forall i :: 0 <= i < |es| ==> r[i] == es[i].key + "=" + ToString(Unwrap(es[i].val))
  {
    seq(|es|, i requires 0 <= i < |es| => es[i].key + "=" + ToString(Unwrap(es[i].val)))
  }

  /** The child of a disk row: the value of `calculatedOptions &&
      Object.entries(...).map(...).join(',  ')`. */
  function DiskDetail(options: JsValue): (r: Completion<JsValue>)
    ensures !Truthy(options) ==> r == Normal(options)
    ensures Truthy(options) ==>
      (r.Normal? <==> forall i :: 0 <= i < |Entries(OptionsSource(options))| ==>
                        !Nullish(Entries(OptionsSource(options))[i].val))
    ensures Truthy(options) && r.Normal? ==>
      r.value == Str(JoinStrings(UnwrappedPairs(Entries(OptionsSource(options))), ",  "))
  {
    var calculated := UnwrapKey(options, "options");
    if !Truthy(calculated) then Normal(calculated)
    else
      var es := Entries(OptionsSource(options));
      match MapOrThrow(es, OptionText)
      case TypeError => TypeError
      case Normal(parts) =>
        assert parts == UnwrappedPairs(es);
        Normal(Str(JoinStrings(parts, ",  ")))
  }

  /** The text React renders for a disk row's child: nothing for null,
      undefined and booleans, the digits of a number, a string as it is. */
  function RenderedText(child: JsValue): (r: string)
    requires !child.Arr? && !child.Obj?
    ensures Nullish(child) || child.Bool? ==> r == ""
    ensures child.Str? ==> r == child.s
    ensures child.Num? ==> r == IntToString(child.n) && r != ""
  {
    match child
    case Str(s) => s
    case Num(n) => IntToString(n)
    case _ => ""
  }

  /** Absent options give an empty detail; so do the other falsy values except
      the number 0, whose digit React renders. */
  lemma DiskDetailWithoutOptions(options: JsValue)
    requires !Truthy(options)
    ensures DiskDetail(options) == Normal(options)
    ensures RenderedText(options) == (if options == Num(0) then "0" else "")
  {
  }

  /** Options given bare, as `{ options: ... }` or as `{ value: ... }` give the
      same detail text. */
  lemma {:induction false} DiskOptionsMayBeWrapped(x: JsValue)
    requires Truthy(x)
    requires !Truthy(Get(x, "options")) && !Truthy(Get(x, "value"))
    ensures DiskDetail(Obj([Property("options", x)])) == DiskDetail(x)
    ensures DiskDetail(Wrap(x)) == DiskDetail(x)
  {
    var byOptions := Obj([Property("options", x)]);
    assert Get(byOptions, "options") == x;
    assert OptionsSource(byOptions) == x;
    assert OptionsSource(x) == x;
    assert Get(Wrap(x), "options") == Undefined;
    assert Get(Wrap(x), "value") == x;
    assert OptionsSource(Wrap(x)) == x;
  }

  /** The cells of a disk row: device, label, mount point and type; all but
      the label may arrive wrapped. */
  function DiskCells(disk: JsValue): (r: seq<Cell>)
    requires !Nullish(disk)
    ensures |r| == |DiskColumns|
    ensures forall i :: 0 <= i < |r| ==> r[i].Value?
    ensures r[1].v == Get(disk, "label")
    ensures Truthy(r[0].v) <==> Truthy(Get(disk, "device"))
    ensures Truthy(r[2].v) <==> Truthy(Get(disk, "mountpoint"))
    ensures Truthy(r[3].v) <==> Truthy(Get(disk, "mounttype"))
  {
    [ Value(Unwrap(Get(disk, "device"))),
      Value(Get(disk, "label")),
      Value(Unwrap(Get(disk, "mountpoint"))),
      Value(Unwrap(Get(disk, "mounttype"))) ]
  }

  /** One row of `diskMapper`; destructuring a null or undefined disk throws. */
  function DiskRow(disk: JsValue): (r: Completion<Row>)
    ensures r.Normal? <==> !Nullish(disk) && DiskDetail(Get(disk, "options")).Normal?
    ensures r.Normal? ==>
      r.value == Expandable(false, DiskDetail(Get(disk, "options")).value, DiskCells(disk))
  {
    if Nullish(disk) then TypeError
    else match DiskDetail(Get(disk, "options"))
      case TypeError => TypeError
      case Normal(child) => Normal(Expandable(false, child, DiskCells(disk)))
  }

  const DiskColumns: seq<Column> :=
    [Column("Device", true), Column("Label", true), Column("Mount point", true), Column("Type", true)]

  function DiskMapper(devices: seq<JsValue>): (r: Completion<Table>)
    ensures r.Normal? <==> forall i :: 0 <= i < |devices| ==>
              !Nullish(devices[i]) && DiskDetail(Get(devices[i], "options")).Normal?
    ensures r.Normal? ==>
      && r.value.columns == DiskColumns
      && |r.value.rows| == |devices|
      && Rectangular(r.value)
      && r.value.expandable
      && r.value.filters.None?
    ensures r.Normal? ==> forall i :: 0 <= i < |devices| ==>
      && r.value.rows[i].Expandable?
      && !r.value.rows[i].isOpen
      && r.value.rows[i].child == DiskDetail(Get(devices[i], "options")).value
      && r.value.rows[i].cells == DiskCells(devices[i])
  {
    match MapOrThrow(devices, DiskRow)
    case TypeError => TypeError
    case Normal(rows) => Normal(Table(DiskColumns, rows, None, true))
  }

  /** A disk record with the fields in the order the API sends them. */
  function DiskRecord(device: JsValue, lbl: JsValue, mountpoint: JsValue, options: JsValue, mounttype: JsValue): JsValue {
    Obj([ Property("device", device), Property("label", lbl), Property("mountpoint", mountpoint),
          Property("options", options), Property("mounttype", mounttype) ])
  }

  lemma DiskRecordFields(device: JsValue, lbl: JsValue, mountpoint: JsValue, options: JsValue, mounttype: JsValue)
    ensures var d := DiskRecord(device, lbl, mountpoint, options, mounttype);
      && Get(d, "device") == device && Get(d, "label") == lbl && Get(d, "mountpoint") == mountpoint
      && Get(d, "options") == options && Get(d, "mounttype") == mounttype
  {
    var ps := DiskRecord(device, lbl, mountpoint, options, mounttype).props;
    assert DistinctKeys(ps) by {
      // The five keys have five different lengths.
      assert |ps[0].key| == 6 && |ps[1].key| == 5 && |ps[2].key| == 10 && |ps[3].key| == 7 && |ps[4].key| == 9;
    }
    LookupDistinct(ps, 0);
    LookupDistinct(ps, 1);
    LookupDistinct(ps, 2);
    LookupDistinct(ps, 3);
    LookupDistinct(ps, 4);
  }

  /** Device, mount point and type may each arrive bare or as `{ value: x }`:
      for truthy scalars the row is the same. */
  lemma {:induction false} DiskFieldsMayBeWrapped(device: JsValue, lbl: JsValue, mountpoint: JsValue,
                                                  options: JsValue, mounttype: JsValue)
    requires IsScalar(device) && Truthy(device)
    requires IsScalar(mountpoint) && Truthy(mountpoint)
    requires IsScalar(mounttype) && Truthy(mounttype)
    ensures DiskRow(DiskRecord(Wrap(device), lbl, Wrap(mountpoint), options, Wrap(mounttype)))
         == DiskRow(DiskRecord(device, lbl, mountpoint, options, mounttype))
  {
    UnwrapBareOrWrapped(device);
    UnwrapBareOrWrapped(mountpoint);
    UnwrapBareOrWrapped(mounttype);
    DiskRecordFields(device, lbl, mountpoint, options, mounttype);
    DiskRecordFields(Wrap(device), lbl, Wrap(mountpoint), options, Wrap(mounttype));
  }

  /** The label is never unwrapped: a wrapped label stays the wrapper. */
  lemma DiskLabelIsNotUnwrapped(device: JsValue, lbl: JsValue, mountpoint: JsValue,
                                options: JsValue, mounttype: JsValue)
    requires DiskDetail(options).Normal?
    ensures DiskRow(DiskRecord(device, Wrap(lbl), mountpoint, options, mounttype)).Normal?
    ensures DiskRow(DiskRecord(device, Wrap(lbl), mountpoint, options, mounttype)).value.cells[1]
         == Value(Wrap(lbl))
  {
    DiskRecordFields(device, Wrap(lbl), mountpoint, options, mounttype);
  }

  /** `options = { a: { value: 1 }, b: 2 }` renders as "a=1,  b=2". */
  lemma DiskDetailExample()
    ensures DiskDetail(Obj([Property("a", Wrap(Num(1))), Property("b", Num(2))])) == Normal(Str("a=1,  b=2"))
  {
    var options := Obj([Property("a", Wrap(Num(1))), Property("b", Num(2))]);
    assert OptionsSource(options) == options;
    UnwrapBareOrWrapped(Num(1));
    UnwrapBareOrWrapped(Num(2));
    assert ToString(Num(1)) == "1" by { assert Digit(1) == '1'; }
    assert ToString(Num(2)) == "2" by { assert Digit(2) == '2'; }
    var pairs := UnwrappedPairs(Entries(options));
    assert pairs[0] == "a" + "=" + "1" == "a=1";
    assert pairs[1] == "b" + "=" + "2" == "b=2";
    assert pairs == ["a=1", "b=2"];
    assert JoinStrings(pairs, ",  ") == "a=1" + ",  " + "b=2" == "a=1,  b=2";
    var es := Entries(OptionsSource(options));
    assert es == options.props;
    assert forall i :: 0 <= i < |es| ==> !Nullish(es[i].val);
  }

  // ---------------------------------------------------------------------------
  // productsMapper and interfaceMapper

  function ProductRow(product: JsValue): (r: Completion<Row>)
    ensures r.Normal? <==> !Nullish(product)
    ensures r.Normal? ==> r.value.Cells? && |r.value.cells| == 2
    ensures r.Normal? ==> r.value.cells[0] == Value(Get(product, "name"))
    ensures r.Normal? ==> r.value.cells[1].Icon? && r.value.cells[1].sortText.None?
    ensures r.Normal? ==> (r.value.cells[1].tag == Up <==> ToString(Get(product, "status")) == "UP")
    ensures r.Normal? ==> (r.value.cells[1].tag == Down <==> ToString(Get(product, "status")) == "DOWN")
    ensures r.Normal? ==> r.value.cells[1].tag in {Up, Down, Unknown}
  {
    if Nullish(product) then TypeError
    else Normal(Cells([Value(Get(product, "name")), Icon(StatusTag(Get(product, "status")), None)]))
  }

  function ProductsMapper(products: seq<JsValue>): (r: Completion<Table>)
    ensures r.Normal? <==> forall i :: 0 <= i < |products| ==> !Nullish(products[i])
    ensures r.Normal? ==>
      && r.value.columns == [Column("Name", true), Column("Status", false)]
      && |r.value.rows| == |products|
      && Rectangular(r.value)
      && r.value.filters.None?
    ensures r.Normal? ==> forall i :: 0 <= i < |products| ==>
      r.value.rows[i] == Cells([Value(Get(products[i], "name")), Icon(StatusTag(Get(products[i], "status")), None)])
  {
    match MapOrThrow(products, ProductRow)
    case TypeError => TypeError
    case Normal(rows) => Normal(Table([Column("Name", true), Column("Status", false)], rows, None, false))
  }

  function InterfaceRow(item: JsValue): (r: Completion<Row>)
    ensures r.Normal? <==> !Nullish(item)
    ensures r.Normal? ==> r.value.Cells? && |r.value.cells| == 5
    ensures r.Normal? ==> r.value.cells[0] == Value(Get(item, "mac_address"))
    ensures r.Normal? ==> r.value.cells[1] == Value(Get(item, "mtu"))
    ensures r.Normal? ==> r.value.cells[2] == Value(Get(item, "name"))
    ensures r.Normal? ==> r.value.cells[3].Icon? && r.value.cells[3].sortText.None?
    ensures r.Normal? ==> (r.value.cells[3].tag == Up <==> ToString(Get(item, "state")) == "UP")
    ensures r.Normal? ==> (r.value.cells[3].tag == Down <==> ToString(Get(item, "state")) == "DOWN")
    ensures r.Normal? ==> r.value.cells[3].tag in {Up, Down, Unknown}
    ensures r.Normal? ==> r.value.cells[4] == Value(Get(item, "type"))
  {
    if Nullish(item) then TypeError
    else Normal(Cells([ Value(Get(item, "mac_address")), Value(Get(item, "mtu")), Value(Get(item, "name")),
                        Icon(StatusTag(Get(item, "state")), None), Value(Get(item, "type")) ]))
  }

  const InterfaceColumns: seq<Column> :=
    [ Column("MAC address", true), Column("MTU", true), Column("Name", true),
      Column("State", false), Column("Type", true) ]

  function InterfaceMapper(data: seq<JsValue>): (r: Completion<Table>)
    ensures r.Normal? <==> forall i :: 0 <= i < |data| ==> !Nullish(data[i])
    ensures r.Normal? ==>
      && r.value.columns == InterfaceColumns
      && |r.value.rows| == |data|
      && Rectangular(r.value)
      && r.value.filters.None?
    ensures r.Normal? ==> forall i :: 0 <= i < |data| ==>
      && r.value.rows[i].cells[3] == Icon(StatusTag(Get(data[i], "state")), None)
      && r.value.rows[i] == Cells([ Value(Get(data[i], "mac_address")), Value(Get(data[i], "mtu")),
                                    Value(Get(data[i], "name")), Icon(StatusTag(Get(data[i], "state")), None),
                                    Value(Get(data[i], "type")) ])
  {
    match MapOrThrow(data, InterfaceRow)
    case TypeError => TypeError
    case Normal(rows) => Normal(Table(InterfaceColumns, rows, None, false))
  }

  /** A status string is Up for "UP", Down for "DOWN" and Unknown for anything
      else, including a missing status. */
  lemma {:induction false} StatusFallback(s: string)
    ensures StatusTag(Str(s)) == (if s == "UP" then Up else if s == "DOWN" then Down else Unknown)
    ensures StatusTag(Undefined) == Unknown
    ensures StatusTag(Str("bogus")) == Unknown
  {
    assert ToString(Undefined) != "UP" by { assert "undefined"[0] != "UP"[0]; }
    assert ToString(Undefined) != "DOWN" by { assert "undefined"[0] != "DOWN"[0]; }
    assert "bogus"[0] != "UP"[0] && "bogus"[0] != "DOWN"[0];
  }

  // ---------------------------------------------------------------------------
  // repositoriesMapper

  function RepositoryRow(repository: JsValue): (r: Completion<Row>)
    ensures r.Normal? <==> !Nullish(repository)
    ensures r.Normal? ==> |r.value.cells| == 3 && r.value.Cells?
    ensures r.Normal? ==> r.value.cells[0] == Titled(Get(repository, "name"), Get(repository, "name"))
    ensures r.Normal? ==>
      && r.value.cells[1] == Icon(EnabledTag(Get(repository, "enabled")), Some(ToString(Get(repository, "enabled"))))
      && (r.value.cells[1].tag == Enabled <==> Truthy(Get(repository, "enabled")))
    ensures r.Normal? ==>
      && r.value.cells[2] == Icon(EnabledTag(Get(repository, "gpgcheck")), Some(ToString(Get(repository, "gpgcheck"))))
      && (r.value.cells[2].tag == Enabled <==> Truthy(Get(repository, "gpgcheck")))
  {
    if Nullish(repository) then TypeError
    else
      var name := Get(repository, "name");
      var enabled := Get(repository, "enabled");
      var gpgcheck := Get(repository, "gpgcheck");
      Normal(Cells([ Titled(name, name),
                     Icon(EnabledTag(enabled), Some(ToString(enabled))),
                     Icon(EnabledTag(gpgcheck), Some(ToString(gpgcheck))) ]))
  }

  const EnabledOptions: seq<FilterOption> :=
    [FilterOption("Is enabled", "true"), FilterOption("Not enabled", "false")]

  const RepositoryColumns: seq<Column> :=
    [Column("Name", true), Column("Enabled", true), Column("GPG check", true)]

  const RepositoryFilters: seq<Filter> :=
    [TextFilter, CheckboxFilter(EnabledOptions), CheckboxFilter(EnabledOptions)]

  function RepositoriesMapper(enabled: seq<JsValue>, disabled: seq<JsValue>): (r: Completion<Table>)
    ensures r.Normal? <==> ((forall i :: 0 <= i < |enabled| ==> !Nullish(enabled[i]))
                            && (forall j :: 0 <= j < |disabled| ==> !Nullish(disabled[j])))
    ensures r.Normal? ==>
      && r.value.columns == RepositoryColumns
      && |r.value.rows| == |enabled| + |disabled|
      && Rectangular(r.value)
      && r.value.filters == Some(RepositoryFilters)
    ensures r.Normal? ==> forall i :: 0 <= i < |enabled| ==>
      r.value.rows[i] == RepositoryRow(enabled[i]).value
    ensures r.Normal? ==> forall j :: 0 <= j < |disabled| ==>
      r.value.rows[|enabled| + j] == RepositoryRow(disabled[j]).value
  {
    var all := enabled + disabled;
    assert forall i :: 0 <= i < |enabled| ==> all[i] == enabled[i];
    assert forall j :: 0 <= j < |disabled| ==> all[|enabled| + j] == disabled[j];
    match MapOrThrow(all, RepositoryRow)
    case TypeError => TypeError
    case Normal(rows) => Normal(Table(RepositoryColumns, rows, Some(RepositoryFilters), false))
  }

  /** The rows are the enabled list's rows followed by the disabled list's,
      whatever each repository's own `enabled` field says. */
  lemma {:induction false} RepositoriesOrder(enabled: seq<JsValue>, disabled: seq<JsValue>)
    requires forall i :: 0 <= i < |enabled| ==> !Nullish(enabled[i])
    requires forall j :: 0 <= j < |disabled| ==> !Nullish(disabled[j])
    ensures RepositoriesMapper(enabled, disabled).Normal?
    ensures RepositoriesMapper(enabled, disabled).value.rows
         == MapOrThrow(enabled, RepositoryRow).value + MapOrThrow(disabled, RepositoryRow).value
  {
    var rows := RepositoriesMapper(enabled, disabled).value.rows;
    var first := MapOrThrow(enabled, RepositoryRow).value;
    var second := MapOrThrow(disabled, RepositoryRow).value;
    assert |rows| == |first + second|;
    forall k | 0 <= k < |rows|
      ensures rows[k] == (first + second)[k]
    {
      if k >= |enabled| {
        assert rows[|enabled| + (k - |enabled|)] == second[k - |enabled|];
      }
    }
  }

  /** A repository record with its fields in the order the API sends them. */
  function RepositoryRecord(name: JsValue, enabled: JsValue, gpgcheck: JsValue): JsValue {
    Obj([Property("name", name), Property("enabled", enabled), Property("gpgcheck", gpgcheck)])
  }

  lemma RepositoryRecordFields(name: JsValue, enabled: JsValue, gpgcheck: JsValue)
    ensures var r := RepositoryRecord(name, enabled, gpgcheck);
      Get(r, "name") == name && Get(r, "enabled") == enabled && Get(r, "gpgcheck") == gpgcheck
  {
    var ps := RepositoryRecord(name, enabled, gpgcheck).props;
    assert DistinctKeys(ps) by {
      // The three keys have three different lengths.
      assert |ps[0].key| == 4 && |ps[1].key| == 7 && |ps[2].key| == 8;
    }
    LookupDistinct(ps, 0);
    LookupDistinct(ps, 1);
    LookupDistinct(ps, 2);
  }

  /** The row of a repository record: the name, then the two icons with the
      raw fields' string forms as sort values. */
  lemma RepositoryRecordRow(name: JsValue, enabled: JsValue, gpgcheck: JsValue)
    ensures RepositoryRow(RepositoryRecord(name, enabled, gpgcheck))
         == Normal(Cells([ Titled(name, name), Icon(EnabledTag(enabled), Some(ToString(enabled))),
                           Icon(EnabledTag(gpgcheck), Some(ToString(gpgcheck))) ]))
  {
    RepositoryRecordFields(name, enabled, gpgcheck);
  }

  /** The example of two repositories, one in each list: the enabled one comes
      first, and a gpgcheck of 0 is Disabled with sort value "0". */
  lemma RepositoriesExample()
    ensures
      var r1 := RepositoryRecord(Str("r1"), Bool(true), Num(0));
      var r2 := RepositoryRecord(Str("r2"), Bool(false), Num(1));
      var t := RepositoriesMapper([r1], [r2]);
      && t.Normal?
      && t.value.rows[0].cells[0] == Titled(Str("r1"), Str("r1"))
      && t.value.rows[1].cells[0] == Titled(Str("r2"), Str("r2"))
      && t.value.rows[0].cells[1] == Icon(Enabled, Some("true"))
      && t.value.rows[0].cells[2] == Icon(Disabled, Some("0"))
  {
    var r1 := RepositoryRecord(Str("r1"), Bool(true), Num(0));
    var r2 := RepositoryRecord(Str("r2"), Bool(false), Num(1));
    RepositoryRecordRow(Str("r1"), Bool(true), Num(0));
    RepositoryRecordRow(Str("r2"), Bool(false), Num(1));
    var t := RepositoriesMapper([r1], [r2]);
    assert t.value.rows[0] == RepositoryRow(r1).value;
    assert t.value.rows[|[r1]| + 0] == RepositoryRow(r2).value;
    assert ToString(Num(0)) == "0";
  }

  // ---------------------------------------------------------------------------
  // generalMapper

  function GeneralRow(item: JsValue): Row {
    Cells([Value(item)])
  }

  function GeneralMapper(data: seq<JsValue>, title: string): (t: Table)
    ensures t.columns == [Column(title, true)]
    ensures |t.rows| == |data|
    ensures Rectangular(t)
    ensures t.filters == Some([TextFilter])
    ensures forall i :: 0 <= i < |data| ==> t.rows[i] == Cells([Value(data[i])])
    ensures !t.expandable
  {
    Table([Column(title, true)], seq(|data|, i requires 0 <= i < |data| => GeneralRow(data[i])), Some([TextFilter]), false)
  }

  /** Reading the single column back gives the input list. */
  lemma GeneralColumnIsData(data: seq<JsValue>, title: string)
    ensures var t := GeneralMapper(data, title);
            seq(|t.rows|, i requires 0 <= i < |t.rows| => t.rows[i].cells[0].v) == data
  {
  }

  // ---------------------------------------------------------------------------
  // workloadsDataMapper: toTitleCase

  /** `str.replace(/_/g, ' ')`. */
  function UnderscoresToSpaces(s: string): (r: string)
    ensures |r| == |s|
    ensures forall i :: 0 <= i < |s| ==> r[i] != '_'
    ensures forall i :: 0 <= i < |s| ==> r[i] == (if s[i] == '_' then ' ' else s[i])
  {
    seq(|s|, i requires 0 <= i < |s| => if s[i] == '_' then ' ' else s[i])
  }

  // `.replace(/\w\S*/g, txt => txt.charAt(0).toUpperCase() + txt.slice(1))`,
  // as the left-to-right scan the regular expression makes: `inMatch` holds
  // while the scan is inside a match, which runs to the next white space.
  function CapitalizeMatches(s: string, inMatch: bool): (r: string)
    ensures |r| == |s|
  {
    if s == [] then []
    else if inMatch then [s[0]] + CapitalizeMatches(s[1..], !IsWhitespace(s[0]))
    else if IsWordChar(s[0]) then [Upper(s[0])] + CapitalizeMatches(s[1..], true)
    else [s[0]] + CapitalizeMatches(s[1..], false)
  }

  /** `toTitleCase`. */
  function TitleCase(s: string): (r: string)
    ensures |r| == |s|
  {
    CapitalizeMatches(UnderscoresToSpaces(s), false)
  }

  /** No white space in s[lo..hi]. */
  ghost predicate NoWhitespace(s: string, lo: nat, hi: nat)
    requires lo <= hi <= |s|
  {
    forall k :: lo <= k < hi ==> !IsWhitespace(s[k])
  }

  /** Some word character before position i has no white space after it up to i. */
  ghost predicate WordCharBefore(s: string, i: nat)
    requires i <= |s|
  {
    exists j :: 0 <= j < i && IsWordChar(s[j]) && NoWhitespace(s, j + 1, i)
  }

  /** Position i begins a word: its character is the first word character of
      its run of non-white-space characters. */
  ghost predicate StartsWord(s: string, i: nat)
    requires i < |s|
  {
    IsWordChar(s[i]) && !WordCharBefore(s, i)
  }

  lemma WordCharBeforeStep(s: string, i: nat)
    requires 1 <= i <= |s|
    ensures WordCharBefore(s, i) <==>
              (IsWordChar(s[0]) && NoWhitespace(s, 1, i)) || WordCharBefore(s[1..], i - 1)
  {
    var t := s[1..];
    if WordCharBefore(s, i) {
      var j :| 0 <= j < i && IsWordChar(s[j]) && NoWhitespace(s, j + 1, i);
      if j > 0 {
        assert IsWordChar(t[j - 1]) && NoWhitespace(t, j, i - 1) by {
          forall k | j <= k < i - 1 ensures !IsWhitespace(t[k]) {
            assert t[k] == s[k + 1];
          }
        }
      }
    }
    if WordCharBefore(t, i - 1) {
      var j :| 0 <= j < i - 1 && IsWordChar(t[j]) && NoWhitespace(t, j + 1, i - 1);
      assert IsWordChar(s[j + 1]) && NoWhitespace(s, j + 2, i) by {
        forall k | j + 2 <= k < i ensures !IsWhitespace(s[k]) {
          assert s[k] == t[k - 1];
        }
      }
    }
  }

  lemma NoWhitespaceStep(s: string, i: nat)
    requires 1 <= i <= |s|
    ensures NoWhitespace(s, 1, i) <==> NoWhitespace(s[1..], 0, i - 1)
    ensures NoWhitespace(s, 0, i) <==> !IsWhitespace(s[0]) && NoWhitespace(s, 1, i)
  {
    var t := s[1..];
    assert forall k :: 0 <= k < i - 1 ==> t[k] == s[k + 1];
  }

  /** What the scan does to position i, in terms of what precedes it. */
  lemma {:induction false} CapitalizeMatchesAt(s: string, inMatch: bool, i: nat)
    requires i < |s|
    ensures CapitalizeMatches(s, inMatch)[i] ==
      if IsWordChar(s[i]) && !(inMatch && NoWhitespace(s, 0, i)) && !WordCharBefore(s, i)
      then Upper(s[i]) else s[i]
  {
    if i > 0 {
      var t := s[1..];
      var next := if inMatch then !IsWhitespace(s[0]) else IsWordChar(s[0]);
      assert CapitalizeMatches(s, inMatch)[i] == CapitalizeMatches(t, next)[i - 1];
      CapitalizeMatchesAt(t, next, i - 1);
      WordCharBeforeStep(s, i);
      NoWhitespaceStep(s, i);
      assert t[i - 1] == s[i];
    }
  }

  /** toTitleCase upper-cases exactly the first word character of every run of
      non-white-space characters, once underscores have become spaces, and
      leaves every other character alone; the result has no underscores. */
  lemma {:induction false} TitleCaseSpec(s: string)
    ensures |TitleCase(s)| == |s|
    ensures forall i :: 0 <= i < |s| ==> TitleCase(s)[i] != '_'
    ensures forall i :: 0 <= i < |s| ==>
      TitleCase(s)[i] == (if StartsWord(UnderscoresToSpaces(s), i)
                          then Upper(UnderscoresToSpaces(s)[i]) else UnderscoresToSpaces(s)[i])
  {
    var t := UnderscoresToSpaces(s);
    forall i | 0 <= i < |s|
      ensures TitleCase(s)[i] == (if StartsWord(t, i) then Upper(t[i]) else t[i])
      ensures TitleCase(s)[i] != '_'
    {
      CapitalizeMatchesAt(t, false, i);
    }
  }

  lemma UnderscoreExample()
    ensures UnderscoresToSpaces("cpu_count") == "cpu count"
  {
    var t := UnderscoresToSpaces("cpu_count");
    assert forall i :: 0 <= i < 9 ==> t[i] == "cpu count"[i];
  }

  /** A word the scan meets outside a match gets its first letter upper-cased. */
  lemma CapitalizeWordExample(w: string)
    requires w == "count"
    ensures CapitalizeMatches(w, false) == "Count"
  {
    var w1 := w[1..];
    var w2 := w1[1..];
    var w3 := w2[1..];
    var w4 := w3[1..];
    assert w4 == "t";
    assert CapitalizeMatches(w4, true) == "t";
    assert w3 == "nt";
    assert CapitalizeMatches(w3, true) == "nt";
    assert w2 == "unt";
    assert CapitalizeMatches(w2, true) == "unt";
    assert w1 == "ount";
    assert CapitalizeMatches(w1, true) == "ount";
  }

  /** "cpu count" is scanned to "Cpu Count": the space ends the first match,
      and the next word starts a new one. */
  lemma CapitalizeExample(s: string)
    requires s == "cpu count"
    ensures CapitalizeMatches(s, false) == "Cpu Count"
  {
    var s1 := s[1..];
    var s2 := s1[1..];
    var s3 := s2[1..];
    var s4 := s3[1..];
    assert s4 == "count";
    CapitalizeWordExample(s4);
    assert s3 == " count";
    assert CapitalizeMatches(s3, true) == " Count";
    assert s2 == "u count";
    assert CapitalizeMatches(s2, true) == "u Count";
    assert s1 == "pu count";
    assert CapitalizeMatches(s1, true) == "pu Count";
  }

  /** "cpu_count" becomes "Cpu Count". */
  lemma TitleCaseExample()
    ensures TitleCase("cpu_count") == "Cpu Count"
  {
    UnderscoreExample();
    CapitalizeExample("cpu count");
  }

  // ---------------------------------------------------------------------------
  // workloadsDataMapper: columns, cell formatting and rows

  /** `getCells()`: the caller's titles when they fit the keys, else a single
      "Value" column when there are no keys, else the title-cased keys. */
  function WorkloadColumns(fieldKeys: seq<string>, columnTitles: Option<seq<string>>): (cols: seq<Column>)
    ensures columnTitles.Some? && |columnTitles.value| == |fieldKeys| ==>
              |cols| == |fieldKeys| && forall i :: 0 <= i < |cols| ==> cols[i] == Column(columnTitles.value[i], false)
    ensures !(columnTitles.Some? && |columnTitles.value| == |fieldKeys|) && fieldKeys == [] ==>
              cols == [Column("Value", false)]
    ensures !(columnTitles.Some? && |columnTitles.value| == |fieldKeys|) && fieldKeys != [] ==>
              |cols| == |fieldKeys| && forall i :: 0 <= i < |cols| ==> cols[i] == Column(TitleCase(fieldKeys[i]), false)
    ensures |cols| == if fieldKeys == [] && columnTitles != Some([]) then 1 else |fieldKeys|
  {
    if columnTitles.Some? && |columnTitles.value| == |fieldKeys| then
      seq(|fieldKeys|, i requires 0 <= i < |fieldKeys| => Column(columnTitles.value[i], false))
    else if fieldKeys == [] then
      [Column("Value", false)]
    else
      seq(|fieldKeys|, i requires 0 <= i < |fieldKeys| => Column(TitleCase(fieldKeys[i]), false))
  }

  /** `formatValue`: arrays become their elements joined by ", ", null and
      undefined become "", everything else passes through. */
  function FormatValue(v: JsValue): (r: JsValue)
    ensures !r.Arr? && !Nullish(r)
    ensures v.Arr? ==> r == Str(Join(v.elems, ", "))
    ensures Nullish(v) ==> r == Str("")
    ensures !v.Arr? && !Nullish(v) ==> r == v
  {
    if v.Arr? then Str(Join(v.elems, ", "))
    else if Nullish(v) then Str("")
    else v
  }

  /** `["a", "b"]` formats as "a, b" and null as "". */
  lemma FormatValueExample()
    ensures FormatValue(Arr([Str("a"), Str("b")])) == Str("a, b")
    ensures FormatValue(Null) == Str("")
  {
    var es := [Str("a"), Str("b")];
    var parts := JoinParts(es);
    assert parts == ["a", "b"];
    assert JoinStrings(parts, ", ") == "a" + ", " + "b";
  }

  /** One workload row: `[item.version]` when there are no keys, else the
      formatted value of each key; reading a null or undefined item throws. */
  function WorkloadRow(item: JsValue, fieldKeys: seq<string>): (r: Completion<Row>)
    ensures r.Normal? <==> !Nullish(item)
    ensures r.Normal? && fieldKeys == [] ==> r.value == Cells([Value(Get(item, "version"))])
    ensures r.Normal? && fieldKeys != [] ==>
      && |r.value.cells| == |fieldKeys|
      && forall j :: 0 <= j < |fieldKeys| ==> r.value.cells[j] == Value(FormatValue(Get(item, fieldKeys[j])))
  {
    if Nullish(item) then TypeError
    else if fieldKeys == [] then Normal(Cells([Value(Get(item, "version"))]))
    else Normal(Cells(seq(|fieldKeys|, j requires 0 <= j < |fieldKeys| => Value(FormatValue(Get(item, fieldKeys[j]))))))
  }

  function WorkloadsDataMapper(data: seq<JsValue>, fieldKeys: seq<string>, columnTitles: Option<seq<string>>): (r: Completion<Table>)
    ensures r.Normal? <==> forall i :: 0 <= i < |data| ==> !Nullish(data[i])
    ensures r.Normal? ==>
      && r.value.columns == WorkloadColumns(fieldKeys, columnTitles)
      && |r.value.rows| == |data|
      && r.value.filters == Some([TextFilter])
    ensures r.Normal? ==> forall i :: 0 <= i < |data| ==> r.value.rows[i] == WorkloadRow(data[i], fieldKeys).value
    ensures r.Normal? ==>
      (Rectangular(r.value) <==> data == [] || !(fieldKeys == [] && columnTitles == Some([])))
  {
    var rowOf := (item: JsValue) => WorkloadRow(item, fieldKeys);
    match MapOrThrow(data, rowOf)
    case TypeError => TypeError
    case Normal(rows) =>
      var t := Table(WorkloadColumns(fieldKeys, columnTitles), rows, Some([TextFilter]), false);
      assert data != [] ==> |rows[0].cells| == if fieldKeys == [] then 1 else |fieldKeys|;
      Normal(t)
  }

  /** With no keys, each row is the item's version, whatever else it holds,
      under one column titled "Value". */
  lemma WorkloadsSingleColumnExample()
    ensures
      var data := [ Obj([Property("version", Str("1.2"))]),
                    Obj([Property("name", Str("x")), Property("version", Str("2.0"))]) ];
      var t := WorkloadsDataMapper(data, [], None);
      && t.Normal?
      && t.value.columns == [Column("Value", false)]
      && t.value.rows == [Cells([Value(Str("1.2"))]), Cells([Value(Str("2.0"))])]
  {
  }

  /** `fieldKeys = ["cpu_count"]` and no titles: the column is "Cpu Count" and
      the row holds the number unchanged. */
  lemma WorkloadsKeyedExample()
    ensures
      var t := WorkloadsDataMapper([Obj([Property("cpu_count", Num(4))])], ["cpu_count"], None);
      && t.Normal?
      && t.value.columns == [Column("Cpu Count", false)]
      && t.value.rows == [Cells([Value(Num(4))])]
  {
    TitleCaseExample();
    var item := Obj([Property("cpu_count", Num(4))]);
    var t := WorkloadsDataMapper([item], ["cpu_count"], None);
    var cols := WorkloadColumns(["cpu_count"], None);
    assert |cols| == 1 && cols[0] == Column(TitleCase("cpu_count"), false);
    assert cols == [Column("Cpu Count", false)];
    assert t.value.columns == cols;
    assert Get(item, "cpu_count") == Num(4);
    var row := WorkloadRow(item, ["cpu_count"]).value;
    assert |row.cells| == 1 && row.cells[0] == Value(Num(4));
    assert row == Cells([Value(Num(4))]);
    assert t.value.rows[0] == row && |t.value.rows| == 1;
    assert t.value.rows == [row];
  }
}
