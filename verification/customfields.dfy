/**
  Custom-field values of a matter turned into display text, in the two
  variants the scripts use: `_resolve_cf_value` (picklist option first, then
  the option table of the field definitions, then the raw value) and
  `extract_cf_map` (raw value first, then the picklist option); and the
  option table built by `fetch_custom_fields_meta`.
 */
module CustomFields {
  import opened Wrappers
  import opened PyValues
  import opened Collections

  /** A `picklist_option` as read: an object with its `option` (`Absent` when
      the key is missing), or no object at all (missing, null or empty). A
      truthy non-object, on which `_resolve_cf_value` raises, is not modelled. */
  datatype PicklistOption = NoObject | OptionObject(option: Value)

  /** One element of a matter's `custom_field_values`: an object, or anything
      else. `fieldName` is "" when the key is missing, null or empty. */
  datatype CfEntry =
    | CfEntry(fieldName: string, fieldType: Value, value: Value, picklist: PicklistOption)
    | NotAnObject

  /** One of a field definition's `picklist_options`. */
  datatype MetaOption = MetaOption(id: Value, option: Value)

  /** One custom-field definition; `name` is "" when missing, null or empty. */
  datatype FieldDef = FieldDef(name: string, id: Value, fieldType: Value, options: seq<MetaOption>)

  /** What `fetch_custom_fields_meta` keeps of a definition: its id, its type,
      and its options keyed by `str(option id)`. */
  datatype FieldMeta = FieldMeta(id: Value, fieldType: Value, options: map<string, Value>)

  // ---------------------------------------------------------------------------
  // fetch_custom_fields_meta
  // ---------------------------------------------------------------------------

  /** `opts[str(oid)] = text`, skipped when the id is `None`. */
  function OptionEntry(o: MetaOption): Option<(string, Value)> {
    if IsNone(o.id) then None else Some((Str(o.id), o.option))
  }

  /** The `opts` table of one definition: keyed by `str(id)` of exactly the
      options whose id is not `None`. */
  function OptionTable(opts: seq<MetaOption>): (t: map<string, Value>)
    ensures forall key :: key in t <==> exists i :: 0 <= i < |opts| && !IsNone(opts[i].id) && Str(opts[i].id) == key
  {
    CollectDomain(opts, OptionEntry);
    Collect(opts, OptionEntry)
  }

  /** `out[name] = {...}`, skipped when the name is empty. */
  function FieldEntry(f: FieldDef): Option<(string, FieldMeta)> {
    if f.name == "" then None else Some((f.name, FieldMeta(f.id, f.fieldType, OptionTable(f.options))))
  }

  /** `fetch_custom_fields_meta` over the definitions the API listed: keyed by
      exactly the non-empty names some definition carries. */
  function MetaByName(defs: seq<FieldDef>): (m: map<string, FieldMeta>)
    ensures forall name :: name in m <==> name != "" && exists i :: 0 <= i < |defs| && defs[i].name == name
  {
    CollectDomain(defs, FieldEntry);
    Collect(defs, FieldEntry)
  }

  /** The option table holds key `key` exactly when some option with an id has
      `str(id) == key`, and it maps it to the text of the last such option. */
  lemma OptionTableLookup(opts: seq<MetaOption>, key: string)
    ensures key in OptionTable(opts) <==>
      exists i :: 0 <= i < |opts| && !IsNone(opts[i].id) && Str(opts[i].id) == key
    ensures key in OptionTable(opts) ==>
      exists i :: 0 <= i < |opts| && !IsNone(opts[i].id) && Str(opts[i].id) == key &&
        OptionTable(opts)[key] == opts[i].option &&
        forall j :: i < j < |opts| ==> IsNone(opts[j].id) || Str(opts[j].id) != key
  {
    CollectLastWins(opts, OptionEntry, key);
  }

  /** An integer option id is found by the integer it is: when the key
      `str(m)` is present, the option it maps to is the last one whose id is
      the integer `m` itself, since `str()` keeps distinct integers apart and
      no other integer id can land on the same key. */
  lemma OptionTableIntKey(opts: seq<MetaOption>, m: int)
    requires IntToString(m) in OptionTable(opts)
    requires forall i :: 0 <= i < |opts| ==> opts[i].id.Int? || IsNone(opts[i].id)
    ensures exists i ::
              0 <= i < |opts| && opts[i].id == Int(m) &&
              OptionTable(opts)[IntToString(m)] == opts[i].option &&
              forall j :: i < j < |opts| ==> opts[j].id != Int(m)
  {
    var key := IntToString(m);
    OptionTableLookup(opts, key);
    var i :| 0 <= i < |opts| && !IsNone(opts[i].id) && Str(opts[i].id) == key &&
      OptionTable(opts)[key] == opts[i].option &&
      forall j :: i < j < |opts| ==> IsNone(opts[j].id) || Str(opts[j].id) != key;
    IntToStringInjective(opts[i].id.i, m);
  }

  /** A definition is found by its name exactly when some definition has that
      non-empty name, and the last of them wins. */
  lemma MetaByNameLookup(defs: seq<FieldDef>, name: string)
    ensures name in MetaByName(defs) <==> name != "" && exists i :: 0 <= i < |defs| && defs[i].name == name
    ensures name in MetaByName(defs) ==>
      exists i :: 0 <= i < |defs| && defs[i].name == name &&
        MetaByName(defs)[name] == FieldMeta(defs[i].id, defs[i].fieldType, OptionTable(defs[i].options)) &&
        forall j :: i < j < |defs| ==> defs[j].name != name
  {
    CollectLastWins(defs, FieldEntry, name);
  }

  // ---------------------------------------------------------------------------
  // The two resolvers
  // ---------------------------------------------------------------------------

  /** `str(x or "")`. */
  function TextOf(x: Value): Value {
    Text(Str(Or(x, Text(""))))
  }

  /** `(cf.get("picklist_option") or {}).get("option")`. */
  function PicklistText(p: PicklistOption): Value {
    match p
    case NoObject => Absent
    case OptionObject(o) => o
  }

  /** The option table of field `name`, empty when there is no definition. */
  function OptionsOf(meta: map<string, FieldMeta>, name: string): map<string, Value> {
    if name in meta then meta[name].options else map[]
  }

  /** `_resolve_cf_value(cf, meta)`. For a picklist field a truthy option
      text wins; failing that, a non-`None` value whose `str()` is in the
      field's option table gives that option's text (or ""); otherwise, and
      for every other field type, `str(value or "")`. */
  function Resolve(cf: CfEntry, meta: map<string, FieldMeta>): (r: Value)
    requires cf.CfEntry?
    ensures cf.fieldType == Text("picklist") && Truthy(PicklistText(cf.picklist)) ==>
      r == PicklistText(cf.picklist)
    ensures (cf.fieldType == Text("picklist") && !Truthy(PicklistText(cf.picklist)) &&
             !IsNone(cf.value) && Str(cf.value) in OptionsOf(meta, cf.fieldName)) ==>
      r == Or(OptionsOf(meta, cf.fieldName)[Str(cf.value)], Text(""))
    ensures (cf.fieldType == Text("picklist") && !Truthy(PicklistText(cf.picklist)) &&
             (IsNone(cf.value) || Str(cf.value) !in OptionsOf(meta, cf.fieldName))) ==>
      r == TextOf(cf.value)
    ensures cf.fieldType != Text("picklist") ==> r == TextOf(cf.value)
  {
    if cf.fieldType == Text("picklist") then
      var opt := PicklistText(cf.picklist);
      if Truthy(opt) then opt
      else
        var options := OptionsOf(meta, cf.fieldName);
        if !IsNone(cf.value) && Str(cf.value) in options then Or(options[Str(cf.value)], Text(""))
        else TextOf(cf.value)
    else TextOf(cf.value)
  }

  /** Only a picklist field without option text consults the definitions:
      for every other entry any two option tables give the same text. */
  lemma ResolveIgnoresMeta(cf: CfEntry, meta: map<string, FieldMeta>, other: map<string, FieldMeta>)
    requires cf.CfEntry?
    requires cf.fieldType != Text("picklist") || Truthy(PicklistText(cf.picklist))
    ensures Resolve(cf, meta) == Resolve(cf, other)
  {
  }

  /** `extract_cf_map`'s value: `value` if truthy, else the `option` of an
      object `picklist_option` ("" when it has none), then `or ""`. A truthy
      value wins as it is (not passed through `str()`); otherwise a truthy
      option text; otherwise "". */
  function Extract(cf: CfEntry): (r: Value)
    requires cf.CfEntry?
    ensures Truthy(cf.value) ==> r == cf.value
    ensures !Truthy(cf.value) && Truthy(PicklistText(cf.picklist)) ==> r == PicklistText(cf.picklist)
    ensures !Truthy(cf.value) && !Truthy(PicklistText(cf.picklist)) ==> r == Text("")
  {
    var val := if !Truthy(cf.value) && cf.picklist.OptionObject? then GetOr(cf.picklist.option, Text(""))
               else cf.value;
    Or(val, Text(""))
  }

  /** Where the two resolvers agree: a non-picklist field with non-empty
      text, and a non-picklist field with neither value nor option text (both
      give ""). */
  lemma ResolversAgree(cf: CfEntry, meta: map<string, FieldMeta>)
    requires cf.CfEntry?
    ensures cf.fieldType != Text("picklist") && cf.value.Text? && cf.value.s != "" ==> Resolve(cf, meta) == Extract(cf)
    ensures !Truthy(cf.value) && !Truthy(PicklistText(cf.picklist)) && cf.fieldType != Text("picklist") ==>
      Resolve(cf, meta) == Extract(cf)
  {
  }

  /** Example of where they differ: a picklist field carrying both a raw
      option id and the option's text. `_resolve_cf_value` gives the text,
      `extract_cf_map` the id. */
  lemma ResolversDisagree(meta: map<string, FieldMeta>)
    ensures var cf := CfEntry("Main Paralegal", Text("picklist"), Int(17), OptionObject(Text("Lee, Ana")));
      Resolve(cf, meta) == Text("Lee, Ana") && Extract(cf) == Int(17)
  {
  }

  // ---------------------------------------------------------------------------
  // The per-matter maps
  // ---------------------------------------------------------------------------

  /** `cf` is an object entry that names field `name`. */
  predicate Names(cf: CfEntry, name: string) {
    cf.CfEntry? && cf.fieldName != "" && cf.fieldName == name
  }

  function ResolvedEntry(meta: map<string, FieldMeta>, cf: CfEntry): Option<(string, Value)> {
    if cf.CfEntry? && cf.fieldName != "" then Some((cf.fieldName, Resolve(cf, meta))) else None
  }

  function ExtractedEntry(cf: CfEntry): Option<(string, Value)> {
    if cf.CfEntry? && cf.fieldName != "" then Some((cf.fieldName, Extract(cf))) else None
  }

  function ResolvedEntryFn(meta: map<string, FieldMeta>): CfEntry -> Option<(string, Value)> {
    cf => ResolvedEntry(meta, cf)
  }

  /** The `cf_map` of `build_report_dataframe` (list generation): keyed by
      exactly the field names some object entry carries. */
  function ResolvedMap(entries: seq<CfEntry>, meta: map<string, FieldMeta>): (m: map<string, Value>)
    ensures forall name :: name in m <==> exists i :: 0 <= i < |entries| && Names(entries[i], name)
  {
    CollectDomain(entries, ResolvedEntryFn(meta));
    Collect(entries, ResolvedEntryFn(meta))
  }

  /** `extract_cf_map(entries)` (notes upload): keyed by the same names. */
  function ExtractedMap(entries: seq<CfEntry>): (m: map<string, Value>)
    ensures forall name :: name in m <==> exists i :: 0 <= i < |entries| && Names(entries[i], name)
  {
    CollectDomain(entries, ExtractedEntry);
    Collect(entries, ExtractedEntry)
  }

  /** A field is in the resolved map iff some object entry names it, and its
      text is the resolution of the last entry naming it. */
  lemma ResolvedMapLastWins(entries: seq<CfEntry>, meta: map<string, FieldMeta>, name: string)
    ensures name in ResolvedMap(entries, meta) <==> exists i :: 0 <= i < |entries| && Names(entries[i], name)
    ensures name in ResolvedMap(entries, meta) ==>
      exists i :: 0 <= i < |entries| && Names(entries[i], name) &&
        ResolvedMap(entries, meta)[name] == Resolve(entries[i], meta) &&
        forall j :: i < j < |entries| ==> !Names(entries[j], name)
  {
    var f := ResolvedEntryFn(meta);
    CollectLastWins(entries, f, name);
    forall cf: CfEntry
      ensures Defines(f, cf, name) <==> Names(cf, name)
    {
    }
  }

  /** The same for `extract_cf_map`. */
  lemma ExtractedMapLastWins(entries: seq<CfEntry>, name: string)
    ensures name in ExtractedMap(entries) <==> exists i :: 0 <= i < |entries| && Names(entries[i], name)
    ensures name in ExtractedMap(entries) ==>
      exists i :: 0 <= i < |entries| && Names(entries[i], name) &&
        ExtractedMap(entries)[name] == Extract(entries[i]) &&
        forall j :: i < j < |entries| ==> !Names(entries[j], name)
  {
    CollectLastWins(entries, ExtractedEntry, name);
  }

  /** Both maps have the same keys: the variants differ only in the text. */
  lemma MapsSameKeys(entries: seq<CfEntry>, meta: map<string, FieldMeta>, name: string)
    ensures name in ResolvedMap(entries, meta) <==> name in ExtractedMap(entries)
  {
    ResolvedMapLastWins(entries, meta, name);
    ExtractedMapLastWins(entries, name);
  }

  /** `cf.get(name, "")` on a map. */
  function FieldText(m: map<string, Value>, name: string): Value {
    if name in m then m[name] else Text("")
  }
}
