/**
  `build_report_dataframe`: one row per open matter with its trust balance,
  left-merged with the client's outstanding balance (on Client ID) and the
  matter's unbilled amount (on Matter ID), missing amounts filled with 0,
  Net Trust = Trust - Outstanding - Unbilled, the custom-field columns, and
  (in the list-generation script) the billing-cycle hours; the rows sorted
  stably by Net Trust, largest first.
 */
module Report {
  import opened Wrappers
  import opened PyValues
  import opened Collections
  import opened CustomFields
  import opened Hours
  import opened Join
  import opened Sorting

  // ---------------------------------------------------------------------------
  // Inputs
  // ---------------------------------------------------------------------------

  /** One element of `account_balances`: an object with its `balance`
      (`Absent` when the key is missing), or anything else. */
  datatype BalanceEntry = BalanceObject(balance: Value) | OtherBalance

  /** An open matter as read. String fields are "" when missing, null or
      empty; ids are `None` when missing or null. `number` is kept as the raw
      JSON value, since the API may give it as an integer. */
  datatype Matter = Matter(
    id: Option<int>,
    displayNumber: string,
    number: Value,
    clientId: Option<int>,
    clientName: string,
    stage: string,
    attorney: string,
    balances: seq<BalanceEntry>,
    customFields: seq<CfEntry>)

  /** One outstanding-client-balance record: its contact's id and the raw
      `total_outstanding_balance`. */
  datatype ClientBalance = ClientBalance(clientId: Option<int>, outstanding: Value)

  /** One billable-matter record: its id and the raw `unbilled_amount`. */
  datatype BillableMatter = BillableMatter(matterId: Option<int>, unbilledAmount: Value)

  /** Which script builds the report. */
  datatype Variant = ListGeneration | NotesUpload

  // ---------------------------------------------------------------------------
  // Trust balance
  // ---------------------------------------------------------------------------

  /** `float((b or {}).get("balance", 0) or 0)`, or nothing added when that
      raises: a non-object entry, or a balance `float()` rejects. */
  function BalanceOf(b: BalanceEntry): (x: real)
    ensures b.OtherBalance? ==> x == 0.0
    ensures b.BalanceObject? && !Truthy(b.balance) ==> x == 0.0
    ensures b.BalanceObject? && ToFloat(b.balance).Some? ==> x == ToFloat(b.balance).value
    ensures b.BalanceObject? && ToFloat(b.balance).None? ==> x == 0.0
  {
    match b
    case OtherBalance => 0.0
    case BalanceObject(v) =>
      match ToFloat(Or(v, Int(0)))
      case Some(x) => x
      case None => 0.0
  }

  /** The entry adds its balance: an object whose balance `float()` reads. */
  predicate Readable(b: BalanceEntry) {
    b.BalanceObject? && ToFloat(b.balance).Some?
  }

  /** The balances added up in list order. Entries that cannot be read add
      nothing, and non-negative balances give a non-negative trust. */
  function TrustSum(bs: seq<BalanceEntry>): (t: real)
    ensures (forall i :: 0 <= i < |bs| ==> !Readable(bs[i])) ==> t == 0.0
    ensures (forall i :: 0 <= i < |bs| ==> BalanceOf(bs[i]) >= 0.0) ==> t >= 0.0
    decreases |bs|
  {
    if |bs| == 0 then 0.0 else TrustSum(bs[..|bs| - 1]) + BalanceOf(bs[|bs| - 1])
  }

  /** The trust loop of `build_report_dataframe`. */
  method TrustBalance(bs: seq<BalanceEntry>) returns (trust: real)
    ensures trust == TrustSum(bs)
  {
    trust := 0.0;
    var i := 0;
    while i < |bs|
      invariant 0 <= i <= |bs|
      invariant trust == TrustSum(bs[..i])
    {
      TrustSumSnoc(bs, i);
      trust := trust + BalanceOf(bs[i]);
      i := i + 1;
    }
    assert bs[..i] == bs;
  }

  /** One more entry adds its own balance to the sum of those before it. */
  lemma TrustSumSnoc(bs: seq<BalanceEntry>, i: nat)
    requires i < |bs|
    ensures TrustSum(bs[..i + 1]) == TrustSum(bs[..i]) + BalanceOf(bs[i])
  {
    assert bs[..i + 1][..i] == bs[..i];
  }

  lemma {:induction false} TrustSumAppend(a: seq<BalanceEntry>, b: seq<BalanceEntry>)
    ensures TrustSum(a + b) == TrustSum(a) + TrustSum(b)
    decreases |b|
  {
    if |b| == 0 {
      assert a + b == a;
    } else {
      var n := |b| - 1;
      assert (a + b)[..|a + b| - 1] == a + b[..n];
      assert (a + b)[|a + b| - 1] == b[n];
      TrustSumAppend(a, b[..n]);
    }
  }

  /** Skipping an entry that raises is the same as leaving it out: the trust
      balance is the sum of the readable balances alone. */
  lemma {:induction false} TrustSumOfReadable(bs: seq<BalanceEntry>)
    ensures TrustSum(bs) == TrustSum(Filter(bs, Readable))
    decreases |bs|
  {
    if |bs| > 0 {
      var t := bs[1..];
      var head := if Readable(bs[0]) then [bs[0]] else [];
      TrustSumOfReadable(t);
      assert TrustSum(bs) == TrustSum([bs[0]]) + TrustSum(t) by {
        assert bs == [bs[0]] + t;
        TrustSumAppend([bs[0]], t);
      }
      assert TrustSum(Filter(bs, Readable)) == TrustSum(head) + TrustSum(Filter(t, Readable)) by {
        assert bs == [bs[0]] + t;
        FilterCons(bs[0], t, Readable);
        TrustSumAppend(head, Filter(t, Readable));
      }
      SingleTrust(bs[0]);
    }
  }

  /** One entry adds its balance when readable and nothing otherwise. */
  lemma SingleTrust(b: BalanceEntry)
    ensures TrustSum([b]) == TrustSum(if Readable(b) then [b] else [])
  {
    assert [b][..0] == [];
  }

  // ---------------------------------------------------------------------------
  // Merges and the net balance
  // ---------------------------------------------------------------------------

  /** `pd.to_numeric(x, errors="coerce").fillna(0.0)`. The pandas parser
      reads decimal notation as `float()` does, but not digit-group
      underscores: text holding one coerces to NaN, so 0.0. */
  function Coerce(v: Value): (x: real)
    ensures v.Text? && '_' in v.s ==> x == 0.0
    ensures !(v.Text? && '_' in v.s) && ToFloat(v).Some? ==> x == ToFloat(v).value
    ensures !(v.Text? && '_' in v.s) && ToFloat(v).None? ==> x == 0.0
  {
    if v.Text? && '_' in v.s then 0.0
    else
      match ToFloat(v)
      case Some(x) => x
      case None => 0.0
  }

  /** The Outstanding Balance of a merged row: `total_outstanding_balance or 0`
      coerced, and 0 when no record matched. */
  function OutstandingOf(c: Option<ClientBalance>): (x: real)
    ensures c.None? ==> x == 0.0
    ensures c.Some? ==> x == Coerce(Or(c.value.outstanding, Int(0)))
  {
    match c
    case None => 0.0
    case Some(r) => Coerce(Or(r.outstanding, Int(0)))
  }

  /** The Unbilled Amount of a merged row, likewise. */
  function UnbilledOf(b: Option<BillableMatter>): (x: real)
    ensures b.None? ==> x == 0.0
    ensures b.Some? ==> x == Coerce(Or(b.value.unbilledAmount, Int(0)))
  {
    match b
    case None => 0.0
    case Some(r) => Coerce(Or(r.unbilledAmount, Int(0)))
  }

  function MatterClient(m: Matter): Option<int> { m.clientId }
  function BalanceClient(c: ClientBalance): Option<int> { c.clientId }
  function MergedMatterId(p: (Matter, Option<ClientBalance>)): Option<int> { p.0.id }
  function BillableId(b: BillableMatter): Option<int> { b.matterId }

  /** A row of `combined` after the merges and the zero fill. */
  datatype Combined = Combined(matter: Matter, trust: real, outstanding: real, unbilled: real)

  /** Net Trust Account Balance. */
  function Net(c: Combined): real {
    c.trust - c.outstanding - c.unbilled
  }

  function CombineRow(p: ((Matter, Option<ClientBalance>), Option<BillableMatter>)): Combined {
    Combined(p.0.0, TrustSum(p.0.0.balances), OutstandingOf(p.0.1), UnbilledOf(p.1))
  }

  /** `matter_df.merge(ocb_df, on="Client ID", how="left")
      .merge(billable_df, on="Matter ID", how="left")`, zero-filled. */
  function CombineAll(matters: seq<Matter>, ocb: seq<ClientBalance>, billable: seq<BillableMatter>): (cs: seq<Combined>)
    ensures |cs| >= |matters|
    ensures forall i :: 0 <= i < |cs| ==> cs[i].trust == TrustSum(cs[i].matter.balances)
  {
    var js := LeftJoin(LeftJoin(matters, ocb, MatterClient, BalanceClient), billable, MergedMatterId, BillableId);
    seq(|js|, i requires 0 <= i < |js| => CombineRow(js[i]))
  }

  /** Every matter survives both merges: each one is the matter of some
      combined row. */
  lemma NoMatterDropped(matters: seq<Matter>, ocb: seq<ClientBalance>, billable: seq<BillableMatter>, i: nat)
    requires i < |matters|
    ensures |CombineAll(matters, ocb, billable)| >= |matters|
    ensures exists j :: 0 <= j < |CombineAll(matters, ocb, billable)| && CombineAll(matters, ocb, billable)[j].matter == matters[i]
  {
    var j1 := LeftJoin(matters, ocb, MatterClient, BalanceClient);
    JoinKeepsLeft(matters, ocb, MatterClient, BalanceClient, i);
    var ms := Matches(ocb, BalanceClient, matters[i].clientId);
    var p: (Matter, Option<ClientBalance>) := if ms == [] then (matters[i], None) else (matters[i], Some(ms[0]));
    assert p in j1;
    var k :| 0 <= k < |j1| && j1[k] == p;
    var j2 := LeftJoin(j1, billable, MergedMatterId, BillableId);
    JoinKeepsLeft(j1, billable, MergedMatterId, BillableId, k);
    var ms2 := Matches(billable, BillableId, p.0.id);
    var q := if ms2 == [] then (p, None) else (p, Some(ms2[0]));
    assert q in j2;
    var j :| 0 <= j < |j2| && j2[j] == q;
    assert CombineAll(matters, ocb, billable)[j].matter == matters[i];
  }

  /** In general (repeated keys included) each combined row pairs a matter with
      an outstanding amount that is 0 when no record of its client exists and
      otherwise that of a record with the matter's Client ID, and likewise for
      the unbilled amount by Matter ID. */
  lemma CombinedRowSources(matters: seq<Matter>, ocb: seq<ClientBalance>, billable: seq<BillableMatter>, i: nat)
    requires i < |CombineAll(matters, ocb, billable)|
    ensures var c := CombineAll(matters, ocb, billable)[i];
      c.trust == TrustSum(c.matter.balances) &&
      ((c.outstanding == 0.0 && forall j :: 0 <= j < |ocb| ==> ocb[j].clientId != c.matter.clientId) ||
       exists j :: 0 <= j < |ocb| && ocb[j].clientId == c.matter.clientId && c.outstanding == OutstandingOf(Some(ocb[j]))) &&
      ((c.unbilled == 0.0 && forall j :: 0 <= j < |billable| ==> billable[j].matterId != c.matter.id) ||
       exists j :: 0 <= j < |billable| && billable[j].matterId == c.matter.id && c.unbilled == UnbilledOf(Some(billable[j])))
  {
    var j1 := LeftJoin(matters, ocb, MatterClient, BalanceClient);
    var j2 := LeftJoin(j1, billable, MergedMatterId, BillableId);
    JoinRowsMatch(j1, billable, MergedMatterId, BillableId, i);
    var p := j2[i];
    JoinRowOrigin(j1, billable, MergedMatterId, BillableId, i);
    var k :| 0 <= k < |j1| && j1[k] == p.0;
    JoinRowsMatch(matters, ocb, MatterClient, BalanceClient, k);
    if p.0.1.Some? {
      JoinRowSource(matters, ocb, MatterClient, BalanceClient, k);
    }
    if p.1.Some? {
      JoinRowSource(j1, billable, MergedMatterId, BillableId, i);
    }
  }

  /** With unique Client IDs among the balance records and unique Matter IDs
      among the billable records, the combined table is exactly one row per
      matter, in matter order, carrying that matter's own amounts. */
  lemma UniqueReconcile(matters: seq<Matter>, ocb: seq<ClientBalance>, billable: seq<BillableMatter>, i: nat)
    requires UniqueKeys(ocb, BalanceClient) && UniqueKeys(billable, BillableId)
    requires i < |matters|
    ensures |CombineAll(matters, ocb, billable)| == |matters|
    ensures CombineAll(matters, ocb, billable)[i] ==
      Combined(matters[i], TrustSum(matters[i].balances),
               OutstandingOf(Join.Lookup(ocb, BalanceClient, matters[i].clientId)),
               UnbilledOf(Join.Lookup(billable, BillableId, matters[i].id)))
  {
    UniqueJoin(matters, ocb, MatterClient, BalanceClient);
    var j1 := LeftJoin(matters, ocb, MatterClient, BalanceClient);
    UniqueJoin(j1, billable, MergedMatterId, BillableId);
  }

  /** Zero fill: a matter whose client has no balance record and which has no
      billable record gets Net Trust equal to its trust balance. */
  lemma UnmatchedNetIsTrust(matters: seq<Matter>, ocb: seq<ClientBalance>, billable: seq<BillableMatter>, i: nat)
    requires UniqueKeys(ocb, BalanceClient) && UniqueKeys(billable, BillableId)
    requires i < |matters|
    requires forall j :: 0 <= j < |ocb| ==> ocb[j].clientId != matters[i].clientId
    requires forall j :: 0 <= j < |billable| ==> billable[j].matterId != matters[i].id
    ensures |CombineAll(matters, ocb, billable)| == |matters|
    ensures Net(CombineAll(matters, ocb, billable)[i]) == TrustSum(matters[i].balances)
  {
    UniqueReconcile(matters, ocb, billable, i);
    assert Matches(ocb, BalanceClient, matters[i].clientId) == [];
    assert Matches(billable, BillableId, matters[i].id) == [];
  }

  // ---------------------------------------------------------------------------
  // Output rows
  // ---------------------------------------------------------------------------

  /** `display_number or number or ""`: the first truthy of the two, kept
      as whatever JSON value it is, or the empty text when neither is. */
  function MatterNumber(m: Matter): (n: Value)
    ensures Truthy(n) || n == Text("")
    ensures m.displayNumber != "" ==> n == Text(m.displayNumber)
    ensures m.displayNumber == "" && Truthy(m.number) ==> n == m.number
    ensures m.displayNumber == "" && !Truthy(m.number) ==> n == Text("")
  {
    if m.displayNumber != "" then Text(m.displayNumber) else Or(m.number, Text(""))
  }

  /** `cycle_hours.get(dn, 0.0)`. The keys are display-number strings, so a
      Matter Number that is not text (an integer `number`) finds nothing. */
  function HoursAt(totals: map<string, real>, dn: Value): (h: real)
    ensures dn.Text? && dn.s in totals ==> h == totals[dn.s]
    ensures !dn.Text? || dn.s !in totals ==> h == 0.0
  {
    if dn.Text? then Hours.Lookup(totals, dn.s) else 0.0
  }

  /** The custom columns of each script's OUTPUT_FIELDS, in order. */
  function CustomColumns(v: Variant): seq<string> {
    match v
    case ListGeneration =>
      ["CR ID", "Main Paralegal", "Supporting Attorney", "Supporting Paralegal", "Client Notes",
       "Initial Client Goals", "Initial Strategy", "Has strategy changed Describe", "Current action Items",
       "Hearings", "Deadlines", "DV situation description", "Custody Visitation", "CS Add ons Extracurricular",
       "Spousal Support", "PDDs", "Discovery", "Judgment Trial", "Post Judgment", "collection efforts"]
    case NotesUpload =>
      ["CR ID", "Main Paralegal", "Client Notes",
       "Initial Client Goals", "Initial Strategy", "Has strategy changed Describe", "Current action Items",
       "Hearings", "Deadlines", "DV situation description", "Custody Visitation", "CS Add ons Extracurricular",
       "Spousal Support", "PDDs", "Discovery", "Judgment Trial", "Post Judgment", "collection efforts"]
  }

  /** One output row. `hours` is the Billing Cycle Hours column, which only
      the list-generation script has; `fields` holds the custom columns in the
      order of `CustomColumns`. */
  datatype ReportRow = ReportRow(
    matterNumber: Value,
    clientName: string,
    net: real,
    stage: string,
    hours: Option<real>,
    attorney: string,
    fields: seq<Value>)

  /** The matter's `_cf_map`: `_resolve_cf_value` in the list-generation
      script, `extract_cf_map` in the notes-upload one. */
  function CfMap(v: Variant, meta: map<string, FieldMeta>, m: Matter): map<string, Value> {
    match v
    case ListGeneration => ResolvedMap(m.customFields, meta)
    case NotesUpload => ExtractedMap(m.customFields)
  }

  function OutputRow(v: Variant, meta: map<string, FieldMeta>, totals: map<string, real>, c: Combined): ReportRow {
    var cf := CfMap(v, meta, c.matter);
    var cols := CustomColumns(v);
    ReportRow(
      MatterNumber(c.matter),
      c.matter.clientName,
      Net(c),
      c.matter.stage,
      if v.ListGeneration? then Some(HoursAt(totals, MatterNumber(c.matter))) else None,
      c.matter.attorney,
      seq(|cols|, k requires 0 <= k < |cols| => FieldText(cf, cols[k])))
  }

  function NetOf(r: ReportRow): real { r.net }

  /** The rows before sorting, in `combined` order. */
  function UnsortedRows(v: Variant, meta: map<string, FieldMeta>, totals: map<string, real>,
                        matters: seq<Matter>, ocb: seq<ClientBalance>, billable: seq<BillableMatter>): seq<ReportRow>
  {
    var cs := CombineAll(matters, ocb, billable);
    seq(|cs|, i requires 0 <= i < |cs| => OutputRow(v, meta, totals, cs[i]))
  }

  /** `build_report_dataframe`, given what the fetchers returned: the field
      definitions (list generation only), the open matters, the outstanding
      client balances, the billable matters and the cycle-hours totals (list
      generation only). */
  function BuildReport(v: Variant, meta: map<string, FieldMeta>, totals: map<string, real>,
                       matters: seq<Matter>, ocb: seq<ClientBalance>, billable: seq<BillableMatter>): (rows: seq<ReportRow>)
    ensures |rows| >= |matters|
    ensures multiset(rows) == multiset(UnsortedRows(v, meta, totals, matters, ocb, billable))
  {
    Sort(UnsortedRows(v, meta, totals, matters, ocb, billable), NetOf)
  }

  /** The report is the built rows reordered: the same rows, Net Trust never
      increasing, and rows with equal Net Trust in their built order. */
  lemma ReportOrder(v: Variant, meta: map<string, FieldMeta>, totals: map<string, real>,
                    matters: seq<Matter>, ocb: seq<ClientBalance>, billable: seq<BillableMatter>, net: real)
    ensures var rows := UnsortedRows(v, meta, totals, matters, ocb, billable);
      multiset(BuildReport(v, meta, totals, matters, ocb, billable)) == multiset(rows) &&
      Descending(BuildReport(v, meta, totals, matters, ocb, billable), NetOf) &&
      Filter(BuildReport(v, meta, totals, matters, ocb, billable), KeyIs(NetOf, net)) == Filter(rows, KeyIs(NetOf, net))
  {
    var rows := UnsortedRows(v, meta, totals, matters, ocb, billable);
    SortDescending(rows, NetOf);
    SortStable(rows, NetOf, net);
  }

  /** Net Trust of every built row is its trust balance less the outstanding
      and unbilled amounts of its merged row. */
  lemma RowNet(v: Variant, meta: map<string, FieldMeta>, totals: map<string, real>,
               matters: seq<Matter>, ocb: seq<ClientBalance>, billable: seq<BillableMatter>, i: nat)
    requires i < |UnsortedRows(v, meta, totals, matters, ocb, billable)|
    ensures var c := CombineAll(matters, ocb, billable)[i];
      UnsortedRows(v, meta, totals, matters, ocb, billable)[i].net == TrustSum(c.matter.balances) - c.outstanding - c.unbilled
  {
    CombinedRowSources(matters, ocb, billable, i);
  }

  /** The Billing Cycle Hours of a list-generation row is the sum of
      `rounded_quantity / 3600` over the cycle's time entries on that matter
      number, 0 when there are none; a matter whose number is not text (no
      display number, an integer `number`) is credited no hours at all. */
  lemma RowHours(meta: map<string, FieldMeta>, activities: seq<Activity>, c: Combined)
    ensures var dn := MatterNumber(c.matter);
      dn.Text? ==> OutputRow(ListGeneration, meta, CycleTotals(activities), c).hours == Some(HoursFor(activities, dn.s))
    ensures !MatterNumber(c.matter).Text? ==> OutputRow(ListGeneration, meta, CycleTotals(activities), c).hours == Some(0.0)
  {
    var dn := MatterNumber(c.matter);
    if dn.Text? {
      CycleTotalsSum(activities, dn.s);
    }
  }

  /** A matter listed without a display number but with a non-zero integer
      `number` shows that integer as its Matter Number and no cycle hours,
      whatever time entries were recorded. */
  lemma IntegerNumberGetsNoHours(meta: map<string, FieldMeta>, activities: seq<Activity>, c: Combined)
    requires c.matter.displayNumber == "" && c.matter.number.Int? && c.matter.number.i != 0
    ensures OutputRow(ListGeneration, meta, CycleTotals(activities), c).matterNumber == c.matter.number
    ensures OutputRow(ListGeneration, meta, CycleTotals(activities), c).hours == Some(0.0)
  {
    RowHours(meta, activities, c);
  }

  /** A custom column of a list-generation row holds the resolution of the
      last custom-field entry naming that column, or "" when none does. */
  lemma RowField(meta: map<string, FieldMeta>, totals: map<string, real>, c: Combined, k: nat)
    requires k < |CustomColumns(ListGeneration)|
    ensures var name := CustomColumns(ListGeneration)[k];
      var cell := OutputRow(ListGeneration, meta, totals, c).fields[k];
      var es := c.matter.customFields;
      ((forall i :: 0 <= i < |es| ==> !Names(es[i], name)) && cell == Text("")) ||
      (exists i :: 0 <= i < |es| && Names(es[i], name) && cell == Resolve(es[i], meta) &&
         forall j :: i < j < |es| ==> !Names(es[j], name))
  {
    var name := CustomColumns(ListGeneration)[k];
    ResolvedMapLastWins(c.matter.customFields, meta, name);
  }

  /** The same for a notes-upload row, with `extract_cf_map`'s text. */
  lemma RowFieldExtracted(meta: map<string, FieldMeta>, totals: map<string, real>, c: Combined, k: nat)
    requires k < |CustomColumns(NotesUpload)|
    ensures var name := CustomColumns(NotesUpload)[k];
      var cell := OutputRow(NotesUpload, meta, totals, c).fields[k];
      var es := c.matter.customFields;
      ((forall i :: 0 <= i < |es| ==> !Names(es[i], name)) && cell == Text("")) ||
      (exists i :: 0 <= i < |es| && Names(es[i], name) && cell == Extract(es[i]) &&
         forall j :: i < j < |es| ==> !Names(es[j], name))
  {
    var name := CustomColumns(NotesUpload)[k];
    ExtractedMapLastWins(c.matter.customFields, name);
  }
}
