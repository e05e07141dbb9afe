/** Setting a select control in the page: every requested option is found before the first one is written. */
module SelectOptions {
  import opened Options

  datatype Choice = Choice(value: string, disabled: bool)

  datatype Result = Throws | Applied(applied: bool)

  /** The first enabled option with the value. */
  predicate IsChosen(options: seq<Choice>, value: string, i: nat) {
    && i < |options| && options[i].value == value && !options[i].disabled
    && forall k :: 0 <= k < i && options[k].value == value ==> options[k].disabled
  }

  predicate Selectable(options: seq<Choice>, value: string) {
    exists i :: 0 <= i < |options| && options[i].value == value && !options[i].disabled
  }

  /** The control shows exactly the chosen options. */
  ghost predicate Shows(shown: seq<bool>, options: seq<Choice>, values: seq<string>) {
    && |shown| == |options|
    && forall i :: 0 <= i < |shown| ==> (shown[i] <==> exists j :: 0 <= j < |values| && IsChosen(options, values[j], i))
  }

  method FindOption(options: seq<Choice>, value: string) returns (i: Option<nat>)
    ensures i.Some? ==> IsChosen(options, value, i.value)
    ensures i.None? ==> !Selectable(options, value)
  {
    var k := 0;
    while k < |options|
      invariant k <= |options|
      invariant forall l :: 0 <= l < k && options[l].value == value ==> options[l].disabled
    {
      if options[k].value == value && !options[k].disabled {
        return Some(k);
      }
      k := k + 1;
    }
    i := None;
  }

  method FindAll(options: seq<Choice>, values: seq<string>) returns (chosen: Option<seq<nat>>)
    ensures chosen.None? <==> exists j :: 0 <= j < |values| && !Selectable(options, values[j])
    ensures chosen.Some? ==>
      && |chosen.value| == |values|
      && forall j :: 0 <= j < |values| ==> IsChosen(options, values[j], chosen.value[j])
  {
    var found := [];
    var j := 0;
    while j < |values|
      invariant j <= |values| && |found| == j
      invariant forall l :: 0 <= l < j ==> Selectable(options, values[l]) && IsChosen(options, values[l], found[l])
    {
      var i := FindOption(options, values[j]);
      if i.None? {
        return None;
      }
      found := found + [i.value];
      j := j + 1;
    }
    chosen := Some(found);
  }

  function Positions(shown: seq<bool>): set<nat> {
    set i: nat | i < |shown| && shown[i]
  }

  function Elements(chosen: seq<nat>): set<nat> {
    set i | i in chosen
  }

  /** As many options show as were chosen, and each of them was chosen. */
  predicate ReadsBack(shown: seq<bool>, chosen: seq<nat>) {
    |Positions(shown)| == |chosen| && forall i :: 0 <= i < |shown| && shown[i] ==> i in chosen
  }

  lemma {:induction false} DistinctSize(chosen: seq<nat>)
    requires forall i, j :: 0 <= i < j < |chosen| ==> chosen[i] != chosen[j]
    ensures |Elements(chosen)| == |chosen|
  {
    if chosen != [] {
      var n := |chosen| - 1;
      DistinctSize(chosen[..n]);
      assert Elements(chosen) == Elements(chosen[..n]) + {chosen[n]};
    }
  }

  lemma SubsetOfSameSize(a: set<nat>, b: set<nat>)
    requires a <= b && |a| == |b|
    ensures a == b
  {
    assert b == a + (b - a);
  }

  /** For distinct values the count and the inclusion are enough: the control shows exactly what was asked. */
  lemma ReadBackIff(shown: seq<bool>, options: seq<Choice>, values: seq<string>, chosen: seq<nat>)
    requires |shown| == |options| && |chosen| == |values|
    requires forall j :: 0 <= j < |values| ==> IsChosen(options, values[j], chosen[j])
    requires forall i, j :: 0 <= i < j < |values| ==> values[i] != values[j]
    ensures ReadsBack(shown, chosen) <==> Shows(shown, options, values)
  {
    var actual, wanted := Positions(shown), Elements(chosen);
    forall i, j | 0 <= i < j < |chosen| ensures chosen[i] != chosen[j] {
      assert options[chosen[i]].value == values[i] && options[chosen[j]].value == values[j];
    }
    DistinctSize(chosen);
    forall i | 0 <= i < |options|
      ensures i in chosen <==> exists j :: 0 <= j < |values| && IsChosen(options, values[j], i)
    {
      if j :| 0 <= j < |values| && IsChosen(options, values[j], i) {
        OneChosen(options, values[j], i, chosen[j]);
      }
    }
    if ReadsBack(shown, chosen) {
      SubsetOfSameSize(actual, wanted);
      forall i | 0 <= i < |shown| ensures shown[i] <==> i in chosen {
        assert i in actual <==> i in wanted;
      }
    }
    if Shows(shown, options, values) {
      assert actual == wanted;
    }
  }

  lemma OneChosen(options: seq<Choice>, value: string, i: nat, k: nat)
    requires IsChosen(options, value, i) && IsChosen(options, value, k)
    ensures i == k
  {
  }

  /** The options are set one after the other; an error in between leaves the rest as they were. */
  method Write(selected: array<bool>, chosen: seq<nat>, limit: nat)
    requires limit <= selected.Length
    modifies selected
    ensures forall i :: 0 <= i < limit ==> (selected[i] <==> i in chosen)
    ensures forall i :: limit <= i < selected.Length ==> selected[i] == old(selected[i])
  {
    var k := 0;
    while k < limit
      invariant k <= limit
      invariant forall i :: 0 <= i < k ==> (selected[i] <==> i in chosen)
      invariant forall i :: k <= i < selected.Length ==> selected[i] == old(selected[i])
    {
      selected[k] := k in chosen;
      k := k + 1;
    }
  }

  /** `usable` tells whether the element is there, may be acted upon and is a select control. `fault` is the
      number of options written when an error is caught, if one is. `shown` is what the control shows after
      the event handlers of the page ran. A throw leaves the control as it was; it is applied exactly when no
      error was caught and it then shows the requested options. */
  method Select(usable: bool, options: seq<Choice>, selected: array<bool>, multiple: bool, values: seq<string>,
                fault: Option<nat>, connected: bool, shown: seq<bool>)
    returns (r: Result)
    requires selected.Length == |options| == |shown|
    requires forall i, j :: 0 <= i < j < |values| ==> values[i] != values[j]
    modifies selected
    ensures r.Throws? <==>
      !usable || (!multiple && |values| != 1) || exists j :: 0 <= j < |values| && !Selectable(options, values[j])
    ensures r.Throws? ==> selected[..] == old(selected[..])
    ensures r.Applied? && fault.None? ==> Shows(selected[..], options, values)
    ensures r.Applied? ==> (r.applied <==> fault.None? && connected && Shows(shown, options, values))
  {
    if !usable || (!multiple && |values| != 1) {
      return Throws;
    }
    var chosen := FindAll(options, values);
    if chosen.None? {
      return Throws;
    }
    if fault.Some? {
      Write(selected, chosen.value, if fault.value <= |options| then fault.value else |options|);
      return Applied(false);
    }
    Write(selected, chosen.value, |options|);
    forall i, j | 0 <= i < |options| && 0 <= j < |values| && IsChosen(options, values[j], i) ensures i == chosen.value[j] {
      OneChosen(options, values[j], i, chosen.value[j]);
    }
    ReadBackIff(shown, options, values, chosen.value);
    r := Applied(connected && ReadsBack(shown, chosen.value));
  }
}
