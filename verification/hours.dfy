/**
  `fetch_cycle_hours`: the billable activities of the billing cycle summed,
  in hours, per matter display number, and the lookup the report does on the
  result.
 */
module Hours {
  import opened Wrappers
  import opened PyValues

  /** One activity as listed: its `type`, its matter's `display_number` (""
      when the matter, the key or its value is missing, null or empty) and its
      `rounded_quantity` in seconds. */
  datatype Activity = Activity(kind: Value, displayNumber: string, roundedQuantity: Value)

  /** The entry is a time entry on a matter with a display number. */
  predicate Counts(e: Activity) {
    e.kind == Text("TimeEntry") && e.displayNumber != ""
  }

  /** `float(rounded_quantity or 0) / 3600`, and 0 when `float()` fails. */
  function HoursOf(e: Activity): (h: real)
    ensures !Truthy(e.roundedQuantity) ==> h == 0.0
    ensures ToFloat(e.roundedQuantity).Some? ==> h == ToFloat(e.roundedQuantity).value / 3600.0
    ensures Truthy(e.roundedQuantity) && ToFloat(e.roundedQuantity).None? ==> h == 0.0
  {
    match ToFloat(Or(e.roundedQuantity, Int(0)))
    case Some(x) => x / 3600.0
    case None => 0.0
  }

  /** What `e` adds to the total of display number `dn`. */
  function Contribution(e: Activity, dn: string): real {
    if Counts(e) && e.displayNumber == dn then HoursOf(e) else 0.0
  }

  /** `totals.get(dn, 0.0)`. */
  function Lookup(totals: map<string, real>, dn: string): real {
    if dn in totals then totals[dn] else 0.0
  }

  /** The loop of `fetch_cycle_hours` over the listed activities, in order:
      `totals[dn] = totals.get(dn, 0.0) + hours` for every counted entry. */
  function CycleTotals(es: seq<Activity>): (totals: map<string, real>)
    ensures forall dn :: dn in totals ==> dn != ""
    decreases |es|
  {
    if |es| == 0 then map[]
    else
      var totals := CycleTotals(es[..|es| - 1]);
      var e := es[|es| - 1];
      if Counts(e) then totals[e.displayNumber := Lookup(totals, e.displayNumber) + HoursOf(e)]
      else totals
  }

  /** The hours recorded against display number `dn`, summed front to back:
      the reference the loop is measured against. */
  function HoursFor(es: seq<Activity>, dn: string): real
    decreases |es|
  {
    if |es| == 0 then 0.0 else Contribution(es[0], dn) + HoursFor(es[1..], dn)
  }

  lemma {:induction false} HoursForSnoc(es: seq<Activity>, e: Activity, dn: string)
    ensures HoursFor(es + [e], dn) == HoursFor(es, dn) + Contribution(e, dn)
    decreases |es|
  {
    if |es| == 0 {
      assert es + [e] == [e];
      assert [e][1..] == [];
    } else {
      assert (es + [e])[0] == es[0];
      assert (es + [e])[1..] == es[1..] + [e];
      HoursForSnoc(es[1..], e, dn);
    }
  }

  /** A display number is a key of the totals exactly when some counted
      activity carries it (even if its hours are 0). */
  lemma {:induction false} CycleTotalsKeys(es: seq<Activity>, dn: string)
    ensures dn in CycleTotals(es) <==> exists i :: 0 <= i < |es| && Counts(es[i]) && es[i].displayNumber == dn
    decreases |es|
  {
    if |es| > 0 {
      var n := |es| - 1;
      var pre := es[..n];
      CycleTotalsKeys(pre, dn);
      forall i | 0 <= i < n
        ensures pre[i] == es[i]
      {
      }
      if dn in CycleTotals(pre) {
        var i :| 0 <= i < n && Counts(pre[i]) && pre[i].displayNumber == dn;
        assert Counts(es[i]) && es[i].displayNumber == dn;
      } else if Counts(es[n]) && es[n].displayNumber == dn {
      } else {
        forall i | 0 <= i < |es|
          ensures !(Counts(es[i]) && es[i].displayNumber == dn)
        {
          if i < n {
            assert es[i] == pre[i];
          }
        }
      }
    }
  }

  /** `cycle_hours.get(dn, 0.0)` is the sum of `rounded_quantity / 3600`
      over the time entries of matter `dn`, and 0 for a matter with none. */
  lemma {:induction false} CycleTotalsSum(es: seq<Activity>, dn: string)
    ensures Lookup(CycleTotals(es), dn) == HoursFor(es, dn)
    decreases |es|
  {
    if |es| > 0 {
      var n := |es| - 1;
      CycleTotalsSum(es[..n], dn);
      assert es == es[..n] + [es[n]];
      HoursForSnoc(es[..n], es[n], dn);
    }
  }

  /** A matter without a counted time entry gets 0 hours. */
  lemma {:induction false} AbsentMatterHasNoHours(es: seq<Activity>, dn: string)
    requires forall i :: 0 <= i < |es| ==> !Counts(es[i]) || es[i].displayNumber != dn
    ensures HoursFor(es, dn) == 0.0
    decreases |es|
  {
    if |es| > 0 {
      AbsentMatterHasNoHours(es[1..], dn);
    }
  }

  /** Non-negative quantities give non-negative totals. */
  lemma {:induction false} HoursNonNegative(es: seq<Activity>, dn: string)
    requires forall i :: 0 <= i < |es| ==> ToFloat(es[i].roundedQuantity).None? || ToFloat(es[i].roundedQuantity).value >= 0.0
    ensures HoursFor(es, dn) >= 0.0
    decreases |es|
  {
    if |es| > 0 {
      HoursNonNegative(es[1..], dn);
    }
  }
}
