/** How the result cards are derived from the ticked checkboxes, the merged
    result record and the redirect list: one (label, value) row per card,
    in screen order. Layout, styling and animation are not modelled. */
module Rendering {
  import Text
  import opened Values

  const RedirectedDomains: string := "Redirected Domains"
  const NotAvailable: string := "Not Available"
  const RedirectRowLabel: string := "Redirect Domain"
  const TotalRowLabel: string := "Total Redirected Domains"

  /** `displayParameters`: the checkbox labels in screen order. */
  const DisplayParameters: seq<string> := [
    "DA & PA",
    "TF & CF",
    "Referring Domains",
    "Total Backlinks",
    "Estimated Value",
    "Google Indexed",
    "Domain Drops",
    "Expiration Date",
    "Domain Age",
    RedirectedDomains
  ]

  /** `parameterMapping`: the record properties each card shows. */
  const ParameterMapping: map<string, seq<string>> := map[
    "DA & PA" := ["mozDA", "mozPA"],
    "TF & CF" := ["majesticTF", "majesticCF"],
    "Referring Domains" := ["majesticRefDomains"],
    "Total Backlinks" := ["majesticLinks"],
    "Estimated Value" := ["govalue"],
    "Google Indexed" := ["isIndexed"],
    "Domain Drops" := ["drops"],
    "Expiration Date" := ["expiration_date"],
    "Domain Age" := ["domain_age"],
    RedirectedDomains := [RedirectRowLabel]
  ]

  datatype Row = Row(name: string, value: string)

  predicate NoDuplicates(s: seq<string>) {
    forall i, j :: 0 <= i < j < |s| ==> s[i] != s[j]
  }

  /** Position of the first occurrence of `x` in `s`. */
  function IndexOf(s: seq<string>, x: string): (k: nat)
    requires x in s
    ensures k < |s| && s[k] == x
    ensures forall j :: 0 <= j < k ==> s[j] != x
  {
    if s[0] == x then 0 else 1 + IndexOf(s[1..], x)
  }

  function Labels(rows: seq<Row>): (ls: seq<string>)
    ensures |ls| == |rows|
    ensures forall i :: 0 <= i < |rows| ==> ls[i] == rows[i].name
  {
    seq(|rows|, i requires 0 <= i < |rows| => rows[i].name)
  }

  /** One property as shown inside a card: "Not Available" when it is
      `null` or `undefined`, otherwise its string conversion. A reader of
      the card cannot tell a missing property from the string
      "Not Available", and from nothing else. */
  function FieldText(data: Record, field: string): (t: string)
    ensures t == NotAvailable <==> Nullish(Get(data, field)) || Get(data, field) == Str(NotAvailable)
    ensures Get(data, field).Str? ==> t == Get(data, field).s
    ensures Get(data, field).Bool? ==> t == (if Get(data, field).b then "true" else "false")
    ensures Get(data, field).Num? ==>
      Text.IsCanonicalNumeral(t) && Text.NumeralValue(t) == Get(data, field).n
  {
    var v := Get(data, field);
    if Nullish(v) then NotAvailable
    else
      var t := JoinText(v);
      assert v.Num? ==> t[0] != NotAvailable[0];
      t
  }

  /** The value text of the card for parameter `p`. "Google Indexed" and
      "Estimated Value" have their own rules; every other card joins its
      properties' texts with " & ". `formatCurrency` is the locale number
      formatter, taken as given. */
  function ParameterValue(p: string, data: Record, formatCurrency: Value -> string): (t: string)
    requires p in ParameterMapping
    ensures p == "Google Indexed" ==>
      var v := Get(data, "isIndexed");
      && (Nullish(v) ==> t == NotAvailable)
      && (!Nullish(v) && !Falsy(v) ==> t == "Yes")
      && (!Nullish(v) && Falsy(v) ==> t == "No")
    ensures p == "Estimated Value" ==>
      var v := Get(data, "govalue");
      && (Nullish(v) ==> t == NotAvailable)
      && (!Nullish(v) ==> t == "$" + formatCurrency(v))
    ensures p != "Google Indexed" && p != "Estimated Value" && |ParameterMapping[p]| == 1 ==>
      t == FieldText(data, ParameterMapping[p][0])
    ensures p != "Google Indexed" && p != "Estimated Value" && |ParameterMapping[p]| == 2 ==>
      t == FieldText(data, ParameterMapping[p][0]) + " & " + FieldText(data, ParameterMapping[p][1])
  {
    if p == "Google Indexed" then
      var v := Get(data, "isIndexed");
      if !Nullish(v) then (if Falsy(v) then "No" else "Yes") else NotAvailable
    else if p == "Estimated Value" then
      var v := Get(data, "govalue");
      if !Nullish(v) then "$" + formatCurrency(v) else NotAvailable
    else
      var fields := ParameterMapping[p];
      var texts := seq(|fields|, i requires 0 <= i < |fields| => FieldText(data, fields[i]));
      if |fields| == 2 then
        Text.JoinTwo(texts[0], texts[1], " & ");
        assert texts == [texts[0], texts[1]];
        Text.Join(texts, " & ")
      else
        Text.Join(texts, " & ")
  }

  /** A Domain Drops property of 0 shows as "0". */
  lemma ZeroDropsCard(data: Record, formatCurrency: Value -> string)
    requires Get(data, "drops") == Num(0)
    ensures ParameterValue("Domain Drops", data, formatCurrency) == "0"
  {
    assert ParameterMapping["Domain Drops"] == ["drops"];
    assert JoinText(Num(0)) == "0" by {
      assert Text.NatToDecimal(0) == "0";
    }
  }

  /** A one-property card whose property holds a string shows that
      string. */
  lemma StringFieldCard(p: string, field: string, data: Record, text: string,
                        formatCurrency: Value -> string)
    requires p in ParameterMapping && ParameterMapping[p] == [field]
    requires p != "Google Indexed" && p != "Estimated Value"
    requires Get(data, field) == Str(text)
    ensures ParameterValue(p, data, formatCurrency) == text
  {
  }

  /** Dropping the head of a list without duplicates shifts every other
      position down by one. */
  lemma IndexOfTail(s: seq<string>)
    requires |s| > 0 && NoDuplicates(s)
    ensures forall x :: x in s[1..] ==> x != s[0] && IndexOf(s, x) == 1 + IndexOf(s[1..], x)
  {
    forall x | x in s[1..] ensures x != s[0] {
      var k :| 0 <= k < |s[1..]| && s[1..][k] == x;
      assert s[k + 1] == x;
    }
  }

  /** `displayParameters.filter(p => p !== "Redirected Domains")` restricted
      to the ticked ones: the parameters that get a card in the main list. */
  function ShownParameters(params: seq<string>, checked: set<string>): (shown: seq<string>)
    ensures |shown| <= |params|
    ensures forall i :: 0 <= i < |shown| ==>
      shown[i] in params && shown[i] in checked && shown[i] != RedirectedDomains
  {
    if |params| == 0 then []
    else
      var rest := ShownParameters(params[1..], checked);
      if params[0] != RedirectedDomains && params[0] in checked then [params[0]] + rest else rest
  }

  /** Every listed, ticked parameter other than "Redirected Domains" is
      shown. */
  lemma {:induction false} ShownParametersComplete(params: seq<string>, checked: set<string>)
    ensures forall p :: p in params && p in checked && p != RedirectedDomains ==>
      p in ShownParameters(params, checked)
  {
    if |params| > 0 {
      ShownParametersComplete(params[1..], checked);
      forall p | p in params && p != params[0] ensures p in params[1..] {
        var k :| 0 <= k < |params| && params[k] == p;
        assert params[1..][k - 1] == p;
      }
    }
  }

  /** A list ordered by position in the tail of `params` stays ordered by
      position in `params`, also with the head of `params` put in front. */
  lemma OrderedInTail(params: seq<string>, xs: seq<string>)
    requires |params| > 0 && NoDuplicates(params)
    requires forall k :: 0 <= k < |xs| ==> xs[k] in params[1..]
    requires forall i, j :: 0 <= i < j < |xs| ==> IndexOf(params[1..], xs[i]) < IndexOf(params[1..], xs[j])
    ensures forall i, j :: 0 <= i < j < |xs| ==> IndexOf(params, xs[i]) < IndexOf(params, xs[j])
    ensures forall i, j :: 0 <= i < j < |[params[0]] + xs| ==>
      IndexOf(params, ([params[0]] + xs)[i]) < IndexOf(params, ([params[0]] + xs)[j])
  {
    IndexOfTail(params);
    var ys := [params[0]] + xs;
    forall i, j | 0 <= i < j < |ys| ensures IndexOf(params, ys[i]) < IndexOf(params, ys[j]) {
      assert ys[j] == xs[j - 1];
      if i > 0 {
        assert ys[i] == xs[i - 1];
      }
    }
  }

  /** The shown parameters keep the order of `params`. */
  lemma {:induction false} ShownParametersOrdered(params: seq<string>, checked: set<string>)
    requires NoDuplicates(params)
    ensures forall i, j :: 0 <= i < j < |ShownParameters(params, checked)| ==>
      IndexOf(params, ShownParameters(params, checked)[i]) < IndexOf(params, ShownParameters(params, checked)[j])
  {
    if |params| > 0 {
      var rest := ShownParameters(params[1..], checked);
      assert NoDuplicates(params[1..]) by {
        forall i, j | 0 <= i < j < |params[1..]| ensures params[1..][i] != params[1..][j] {
          assert params[1..][i] == params[i + 1] && params[1..][j] == params[j + 1];
        }
      }
      ShownParametersOrdered(params[1..], checked);
      OrderedInTail(params, rest);
    }
  }

  /** The cards of the main list, each with its parameter's value text. */
  function MainRows(checked: set<string>, data: Record, formatCurrency: Value -> string): (rows: seq<Row>)
    ensures Labels(rows) == ShownParameters(DisplayParameters, checked)
    ensures forall i :: 0 <= i < |rows| ==>
      rows[i].name in ParameterMapping && rows[i].value == ParameterValue(rows[i].name, data, formatCurrency)
  {
    DisplayParametersWellFormed();
    var shown := ShownParameters(DisplayParameters, checked);
    seq(|shown|, i requires 0 <= i < |shown| => Row(shown[i], ParameterValue(shown[i], data, formatCurrency)))
  }

  /** The redirect section: when "Redirected Domains" is ticked, one row per
      redirect in list order, then a total row showing the list length. */
  function RedirectRows(checked: set<string>, redirects: seq<string>): (rows: seq<Row>)
    ensures RedirectedDomains !in checked ==> rows == []
    ensures RedirectedDomains in checked ==>
      && |rows| == |redirects| + 1
      && (forall k :: 0 <= k < |redirects| ==> rows[k] == Row(RedirectRowLabel, redirects[k]))
      && rows[|redirects|].name == TotalRowLabel
      && Text.AllDigits(rows[|redirects|].value)
      && Text.IsCanonicalNumeral(rows[|redirects|].value)
      && Text.DecimalValue(rows[|redirects|].value) == |redirects|
  {
    if RedirectedDomains in checked then
      seq(|redirects|, k requires 0 <= k < |redirects| => Row(RedirectRowLabel, redirects[k]))
        + [Row(TotalRowLabel, Text.IntToDecimal(|redirects|))]
    else
      []
  }

  lemma DisplayParametersWellFormed()
    ensures NoDuplicates(DisplayParameters)
    ensures forall i :: 0 <= i < |DisplayParameters| ==> DisplayParameters[i] in ParameterMapping
    ensures TotalRowLabel !in DisplayParameters && RedirectRowLabel !in DisplayParameters
  {
  }

  /** Every card of the results area, main list first. */
  function ResultRows(checked: set<string>, data: Record, redirects: seq<string>,
                      formatCurrency: Value -> string): (rows: seq<Row>)
    ensures forall i :: 0 <= i < |rows| ==> rows[i].name != RedirectedDomains
    ensures forall p :: p in DisplayParameters && p != RedirectedDomains ==>
      (p in Labels(rows) <==> p in checked)
    ensures RedirectedDomains in checked <==> TotalRowLabel in Labels(rows)
    ensures |MainRows(checked, data, formatCurrency)| <= |rows|
    ensures rows[|MainRows(checked, data, formatCurrency)|..] == RedirectRows(checked, redirects)
  {
    var main := MainRows(checked, data, formatCurrency);
    var extra := RedirectRows(checked, redirects);
    assert RedirectedDomains in checked <==> TotalRowLabel in Labels(extra) by {
      if RedirectedDomains in checked {
        assert Labels(extra)[|redirects|] == TotalRowLabel;
      }
    }
    DisplayParametersWellFormed();
    ConcatenatedRows(DisplayParameters, checked, main, extra);
    main + extra
  }

  /** The labels of the results area, from the labels of its two parts:
      the shown parameters, then redirect and total rows. */
  lemma ConcatenatedRows(params: seq<string>, checked: set<string>, main: seq<Row>, extra: seq<Row>)
    requires TotalRowLabel !in params && RedirectRowLabel !in params
    requires Labels(main) == ShownParameters(params, checked)
    requires forall k :: 0 <= k < |extra| ==>
      extra[k].name == RedirectRowLabel || extra[k].name == TotalRowLabel
    requires RedirectedDomains in checked <==> TotalRowLabel in Labels(extra)
    ensures forall i :: 0 <= i < |main + extra| ==> (main + extra)[i].name != RedirectedDomains
    ensures forall p :: p in params && p != RedirectedDomains ==>
      (p in Labels(main + extra) <==> p in checked)
    ensures RedirectedDomains in checked <==> TotalRowLabel in Labels(main + extra)
  {
    ShownParametersComplete(params, checked);
    assert Labels(main + extra) == Labels(main) + Labels(extra);
    assert forall i :: 0 <= i < |main| ==> main[i].name in params;
  }

  /** Rows whose names are the shown parameters, followed by rows named
      outside `params`, keep the order of `params` among themselves. */
  lemma {:induction false} ShownRowsFirst(params: seq<string>, checked: set<string>, main: seq<Row>, extra: seq<Row>)
    requires NoDuplicates(params)
    requires Labels(main) == ShownParameters(params, checked)
    requires forall k :: 0 <= k < |extra| ==> extra[k].name !in params
    ensures forall i, j :: 0 <= i < j < |main + extra| && (main + extra)[j].name in params ==>
      && j < |main|
      && (main + extra)[i].name in params
      && IndexOf(params, (main + extra)[i].name) < IndexOf(params, (main + extra)[j].name)
  {
    var rows := main + extra;
    var shown := ShownParameters(params, checked);
    ShownParametersOrdered(params, checked);
    forall i, j | 0 <= i < j < |rows| && rows[j].name in params
      ensures && j < |main|
              && rows[i].name in params
              && IndexOf(params, rows[i].name) < IndexOf(params, rows[j].name)
    {
      assert rows[i] == main[i] && rows[j] == main[j];
      assert main[i].name == shown[i] && main[j].name == shown[j];
    }
  }

  /** The main list comes first and in checkbox order, each card with its
      parameter's value text; the redirect rows follow it. */
  lemma ResultRowsMainFirst(checked: set<string>, data: Record, redirects: seq<string>,
                            formatCurrency: Value -> string)
    ensures var rows := ResultRows(checked, data, redirects, formatCurrency);
      forall i, j :: 0 <= i < j < |rows| && rows[j].name in DisplayParameters ==>
        && rows[i].name in DisplayParameters
        && IndexOf(DisplayParameters, rows[i].name) < IndexOf(DisplayParameters, rows[j].name)
        && rows[j].value == ParameterValue(rows[j].name, data, formatCurrency)
  {
    var main := MainRows(checked, data, formatCurrency);
    var extra := RedirectRows(checked, redirects);
    assert ResultRows(checked, data, redirects, formatCurrency) == main + extra;
    DisplayParametersWellFormed();
    assert forall k :: 0 <= k < |extra| ==> extra[k].name !in DisplayParameters;
    ShownRowsFirst(DisplayParameters, checked, main, extra);
  }
}
