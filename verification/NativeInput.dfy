/** What the worker tells the browser to do natively, and what it reports when something fails. Replies of
    the browser and everything the worker reads of the page state are those of an arbitrary world. */
module NativeInput {
  import opened Options

  datatype Point = Point(x: real, y: real)

  /** Native input commands. */
  datatype Native =
    | Move(at: Point)
    | Press(at: Point, count: nat)
    | Release(at: Point, count: nat)
    | DragMove(at: Point)               // with the left button held
    | CancelDragging
    | Select(all: bool)                 // the whole text, or its end
    | Insert(text: string)
    | KeyDown(key: string)
    | KeyUp(key: string)

  /** What the catch blocks look at: the flag, and what the message says. */
  datatype Error = Error(flagged: bool, pageScript: bool, stale: bool, mouseTimeout: bool)

  /** Fields the page scripts return; each script uses its own. */
  datatype Value = Value(absent: bool, at: Point, other: Point, moved: bool, observed: bool, detached: bool,
                         applied: bool, checked: bool, control: Control)

  datatype Control = TextControl | SelectControl(multiple: bool) | Checkbox | Radio

  /** A page script returns, throws on its own, or the host fails the request. */
  datatype Reply = Gives(value: Value) | PageThrows(known: bool, stale: bool) | HostFails(error: Error)

  datatype InputReply = Answered(dialogOpened: bool) | InputFails(error: Error)

  /** The answers to the first, second, … question the worker asks. */
  datatype World = World(
    reply: nat -> Reply,
    input: nat -> InputReply,
    holds: nat -> bool,       // navigation advanced, dialog open, call aborted: whatever is asked
    writes: nat -> bool)      // whether `selectOptions` wrote, if it did not throw

  function Fault(flagged: bool): Error {
    Error(flagged, false, false, false)
  }

  function Flag(e: Error): Error {
    e.(flagged := true)
  }

  /** The error of a failed page script: fixed reasons keep their code. */
  function ScriptError(r: Reply): Error
    requires !r.Gives?
  {
    match r
    case PageThrows(known, stale) => Error(false, !known, stale, false)
    case HostFails(e) => e
  }

  datatype Outcome = Done(navigated: bool) | Raised(error: Error)

  /** A failure that says nothing was dispatched. */
  predicate Unflagged(o: Outcome) {
    o.Raised? && !o.error.flagged
  }

  datatype Event = Click | DoubleClick | Hover

  function Clicks(event: Event): nat {
    match event
    case Click => 1
    case DoubleClick => 2
    case Hover => 0
  }

  // ----- the native commands of an operation

  function Moves(points: seq<Point>): seq<Native> {
    seq(|points|, i requires 0 <= i < |points| => Move(points[i]))
  }

  /** The first `n` of: press 1, release 1, press 2, release 2. */
  function ClickSteps(at: Point, n: nat): (r: seq<Native>)
    ensures |r| == n
  {
    seq(n, k requires 0 <= k < n => if k % 2 == 0 then Press(at, k / 2 + 1) else Release(at, k / 2 + 1))
  }

  /** Clicks go to the point last moved to. */
  function Pointing(points: seq<Point>, n: nat): seq<Native> {
    Moves(points) + if points == [] then [] else ClickSteps(points[|points| - 1], n)
  }

  function Editing(text: string, replace: bool, submit: Option<string>): seq<Native> {
    [Select(replace)]
    + (if text != "" then [Insert(text)] else if replace then [KeyDown("Backspace"), KeyUp("Backspace")] else [])
    + (if submit.Some? && submit.value != "" then [KeyDown(submit.value), KeyUp(submit.value)] else [])
  }

  /** When it is asked whether the page moved on since the `k`-th command of clicks begun at `t`. */
  function NavigationAsked(t: nat, k: nat): nat {
    t + 9 * (k / 2) + if k % 2 == 0 then 4 else 8
  }

  lemma AskedWhen(t: nat, count: nat)
    requires count >= 1
    ensures NavigationAsked(t, 2 * (count - 1)) == t + 9 * (count - 1) + 4
    ensures NavigationAsked(t, 2 * (count - 1) + 1) == t + 9 * (count - 1) + 8
  {
  }

  /** After none of the first `n` commands was the page seen to have moved on. */
  ghost predicate StayedPut(world: World, t: nat, n: nat) {
    forall k :: 0 <= k < n ==> !world.holds(NavigationAsked(t, k))
  }

  lemma StaysPut(world: World, t: nat, n: nat)
    requires StayedPut(world, t, n) && !world.holds(NavigationAsked(t, n))
    ensures StayedPut(world, t, n + 1)
  {
  }

  lemma NothingStruck(world: World, t: nat, at: Point)
    ensures StayedPut(world, t, 0) && ClickSteps(at, 0) == []
  {
  }

  lemma NextClickStep(before: seq<Native>, at: Point, count: nat)
    requires count >= 1
    ensures var n := 2 * (count - 1);
      && before + ClickSteps(at, n) + [Press(at, count)] == before + ClickSteps(at, n + 1)
      && before + ClickSteps(at, n + 1) + [Release(at, count)] == before + ClickSteps(at, n + 2)
  {
  }

  function Between(a: Point, b: Point, step: nat): Point {
    Point(a.x + (b.x - a.x) * step as real / 8.0, a.y + (b.y - a.y) * step as real / 8.0)
  }

  function Dragging(source: Point, target: Point): (r: seq<Native>)
    ensures |r| == 11
  {
    [Move(source), Press(source, 1)]
    + seq(8, k requires 0 <= k < 8 => DragMove(Between(source, target, k + 1))) + [Release(target, 1)]
  }

  predicate Blank(key: string) {
    forall i :: 0 <= i < |key| ==> key[i] in " \t\n\r"
  }

  /** Values of form fields; numbers and structures as they are written as text. */
  datatype Scalar = Text(text: string) | Number(text: string) | Boolean(flag: bool) | Structure(text: string) | Absent

  datatype FieldValue = One(value: Scalar) | Many(values: seq<Scalar>)

  datatype Field = NotAnObject | NoValue | NoReference | Field(value: FieldValue, replace: bool)

  datatype Command =
    | ClickRef
    | ClickAt(valid: bool, double: bool)
    | HoverRef
    | DragRefs
    | TypeRef(text: string, replace: bool, submit: Option<string>)   // an empty submit key is none
    | Fill(fields: seq<Field>)

  datatype Status = Succeeded | Failed | Indeterminate

  /** The text a scalar is typed as. */
  function Typed(v: Scalar): string {
    match v
    case Text(t) => t
    case Number(t) => t
    case Boolean(b) => if b then "true" else "false"
    case Structure(t) => t
    case Absent => ""
  }

  function Listed(v: FieldValue): seq<Scalar> {
    match v
    case One(x) => [x]
    case Many(xs) => xs
  }

  /** A point some page script returned. */
  ghost predicate Returned(world: World, p: Point) {
    exists t: nat :: world.reply(t).Gives? && world.reply(t).value.at == p
  }

  // ----- how the browser and the page answered

  /** From `before` to `after` every command was answered, and none opened a dialog. */
  ghost predicate Clear(world: World, before: seq<nat>, after: seq<nat>) {
    before <= after && forall k :: |before| <= k < |after| ==> world.input(after[k]) == Answered(false)
  }

  lemma ClearJoins(world: World, a: seq<nat>, b: seq<nat>, c: seq<nat>)
    requires Clear(world, a, b) && Clear(world, b, c)
    ensures Clear(world, a, c)
  {
    assert forall k :: 0 <= k < |b| ==> c[k] == b[k];
  }

  lemma ClearAdds(world: World, a: seq<nat>, b: seq<nat>, moment: nat)
    requires Clear(world, a, b) && world.input(moment) == Answered(false)
    ensures Clear(world, a, b + [moment])
  {
  }

  predicate StaleReply(r: Reply) {
    !r.Gives? && ScriptError(r).stale
  }

  /** The page went away under the clicks: it was seen to have moved on after the last one, a script found it
      gone, or it was gone when the last command was to be answered. */
  ghost predicate WentAway(world: World, from: nat, to: nat, before: seq<nat>, after: seq<nat>) {
    && before < after
    && var last := after[|after| - 1];
       || (Clear(world, before, after) && world.holds(last + 3))
       || (Clear(world, before, after) && exists u :: from <= u < to && StaleReply(world.reply(u)))
       || (&& Clear(world, before, after[..|after| - 1])
           && world.input(last).InputFails? && world.input(last).error.stale)
  }

  lemma WentAwayAfter(world: World, from: nat, mid: nat, to: nat, end: nat, a: seq<nat>, b: seq<nat>, c: seq<nat>)
    requires Clear(world, a, b) && WentAway(world, mid, to, b, c) && from <= mid && to <= end
    ensures WentAway(world, from, end, a, c)
  {
    assert b <= c[..|c| - 1];
    if Clear(world, b, c) {
      ClearJoins(world, a, b, c);
      if u :| mid <= u < to && StaleReply(world.reply(u)) {
        assert from <= u < end;
      }
    } else {
      ClearJoins(world, a, b, c[..|c| - 1]);
    }
  }

  /** The page confirms a pointer action: it saw the event, or a click took the target out of the document. */
  predicate Confirms(r: Reply, event: Event) {
    r.Gives? && !r.value.absent && (r.value.observed || (r.value.detached && event.Click?))
  }

  /** Nothing stands in the way at this moment, whoever is asked. */
  predicate Willing(world: World, u: nat) {
    && world.input(u) == Answered(false) && !world.holds(u) && world.reply(u).Gives?
    && var v := world.reply(u).value; !v.absent && !v.moved && v.observed && v.applied
  }

  ghost predicate Trouble(world: World, from: nat, to: nat) {
    exists u :: from <= u < to && !Willing(world, u)
  }

  lemma TroubleAt(world: World, from: nat, u: nat, to: nat)
    requires from <= u < to && !Willing(world, u)
    ensures Trouble(world, from, to)
  {
  }

  lemma TroubleIn(world: World, from: nat, mid: nat, end: nat, to: nat)
    requires from <= mid && end <= to && Trouble(world, mid, end)
    ensures Trouble(world, from, to)
  {
    var u :| mid <= u < end && !Willing(world, u);
    assert from <= u < to;
  }

  // ----- what a successful command did

  /** Each command is kept with the moment it was given. */
  predicate Recorded(sentBefore: seq<Native>, before: seq<nat>, sentAfter: seq<Native>, after: seq<nat>) {
    sentBefore <= sentAfter && before <= after && |sentAfter| - |sentBefore| == |after| - |before|
  }

  /** A click, double click or hover: all of it was answered and the page confirmed it, or the page went away
      under the clicks. */
  ghost predicate PointerDone(world: World, event: Event, hasRef: bool, from: nat, to: nat,
                              sentBefore: seq<Native>, before: seq<nat>, sentAfter: seq<Native>, after: seq<nat>) {
    && Recorded(sentBefore, before, sentAfter, after) && world.reply(from).Gives?
    && exists points: seq<Point>, steps: nat ::
         && PointerSent(world, event, hasRef, from, points, steps, sentBefore, sentAfter)
         && (|| (steps == 2 * Clicks(event) && Clear(world, before, after)
                 && exists u :: from <= u < to && Confirms(world.reply(u), event))
             || (steps > 0 && WentAway(world, from, to, before, after)))
  }

  /** Moves to points the page named, the first of them named at `from`, and clicks at the last. */
  ghost predicate PointerSent(world: World, event: Event, hasRef: bool, from: nat, points: seq<Point>, steps: nat,
                              sentBefore: seq<Native>, sentAfter: seq<Native>) {
    && sentAfter == sentBefore + Pointing(points, steps) && steps <= 2 * Clicks(event)
    && 1 <= |points| <= (if event.Click? && hasRef then 4 else 1)
    && world.reply(from).Gives? && points[0] == world.reply(from).value.at
    && forall i :: 0 < i < |points| ==> Returned(world, points[i])
  }

  /** Typing: the focusing click and the editing commands, all answered, and the page shows the text. */
  ghost predicate TextDone(world: World, text: string, replace: bool, submit: Option<string>, from: nat, to: nat,
                           sentBefore: seq<Native>, before: seq<nat>, sentAfter: seq<Native>, after: seq<nat>) {
    && Recorded(sentBefore, before, sentAfter, after) && Clear(world, before, after)
    && (exists points: seq<Point> ::
          PointerSent(world, Click, true, from, points, 2, sentBefore, sentBefore + Pointing(points, 2))
          && sentAfter == sentBefore + Pointing(points, 2) + Editing(text, replace, submit))
    && exists u :: from <= u < to && Applied(world.reply(u))
  }

  predicate Applied(r: Reply) {
    r.Gives? && !r.value.absent && r.value.applied
  }

  predicate Observed(r: Reply) {
    r.Gives? && !r.value.absent && r.value.observed
  }

  /** A drag: the whole plan, all answered, and the page saw the drop. */
  ghost predicate DragDone(world: World, from: nat, to: nat,
                           sentBefore: seq<Native>, before: seq<nat>, sentAfter: seq<Native>, after: seq<nat>) {
    && Recorded(sentBefore, before, sentAfter, after) && Clear(world, before, after) && world.reply(from).Gives?
    && (exists t: nat :: from <= t < to && world.reply(t).Gives? && world.reply(t).value.at == world.reply(from).value.at
          && sentAfter == sentBefore + Dragging(world.reply(from).value.at, world.reply(t).value.other))
    && exists u :: from <= u < to && Observed(world.reply(u))
  }

  /** Filling one field, whose control was named at `t`: the text of a text control is typed, a select control is
      set by the page alone, and a boolean control is clicked unless it already has the wanted value. */
  ghost predicate FieldDone(world: World, field: Field, t: nat, to: nat,
                            sentBefore: seq<Native>, before: seq<nat>, sentAfter: seq<Native>, after: seq<nat>) {
    && field.Field? && world.reply(t).Gives?
    && match world.reply(t).value.control
       case TextControl =>
         && field.value.One?
         && TextDone(world, Typed(field.value.value), field.replace, None, t + 1, to, sentBefore, before, sentAfter, after)
       case SelectControl(multiple) =>
         sentAfter == sentBefore && after == before && Acceptable(field.value, multiple) && Applied(world.reply(t + 1))
       case Checkbox => BooleanDone(world, field.value, t + 1, to, sentBefore, before, sentAfter, after)
       case Radio =>
         BooleanDone(world, field.value, t + 1, to, sentBefore, before, sentAfter, after) && field.value.value.flag
  }

  /** The state of the control is read at `t`; if it is not the wanted one, the control is clicked and the wanted
      one is read afterwards. */
  ghost predicate BooleanDone(world: World, value: FieldValue, t: nat, to: nat,
                              sentBefore: seq<Native>, before: seq<nat>, sentAfter: seq<Native>, after: seq<nat>) {
    && value.One? && value.value.Boolean? && world.reply(t).Gives?
    && if world.reply(t).value.checked == value.value.flag then sentAfter == sentBefore && after == before
       else
         && PointerDone(world, Click, true, t + 1, to, sentBefore, before, sentAfter, after)
         && exists u :: t < u < to && world.reply(u).Gives? && world.reply(u).value.checked == value.value.flag
  }

  /** Where the log stands: the time, the commands sent, and their moments. */
  datatype Mark = Mark(tick: nat, sent: seq<Native>, moments: seq<nat>)

  /** The first fields were filled one after the other; `marks` are the log before, between and after them. */
  ghost predicate FieldsDone(world: World, fields: seq<Field>, marks: seq<Mark>) {
    && 1 <= |marks| <= |fields| + 1
    && forall i :: 0 <= i < |marks| - 1 ==> FieldBetween(world, fields[i], marks[i], marks[i + 1])
  }

  ghost predicate FieldBetween(world: World, field: Field, a: Mark, b: Mark) {
    && a.tick < b.tick && Recorded(a.sent, a.moments, b.sent, b.moments)
    && FieldDone(world, field, a.tick, b.tick, a.sent, a.moments, b.sent, b.moments)
  }

  lemma FieldsGrow(world: World, fields: seq<Field>, marks: seq<Mark>, next: Mark)
    requires FieldsDone(world, fields, marks) && |marks| <= |fields|
    requires FieldBetween(world, fields[|marks| - 1], marks[|marks| - 1], next)
    ensures FieldsDone(world, fields, marks + [next])
  {
    hide FieldBetween;
    var longer := marks + [next];
    forall i | 0 <= i < |longer| - 1 ensures FieldBetween(world, fields[i], longer[i], longer[i + 1]) {
      assert longer[i] == marks[i];
      if i < |marks| - 1 {
        assert longer[i + 1] == marks[i + 1];
      }
    }
  }

  /** What a command did when it is reported as succeeded. */
  ghost predicate Performed(world: World, command: Command, from: nat, to: nat,
                            sentBefore: seq<Native>, before: seq<nat>, sentAfter: seq<Native>, after: seq<nat>) {
    match command
    case ClickRef => PointerDone(world, Click, true, from, to, sentBefore, before, sentAfter, after)
    case ClickAt(valid, double) =>
      var event := if double then DoubleClick else Click;
      valid && PointerDone(world, event, false, from, to, sentBefore, before, sentAfter, after)
    case HoverRef => PointerDone(world, Hover, true, from, to, sentBefore, before, sentAfter, after)
    case DragRefs => DragDone(world, from, to, sentBefore, before, sentAfter, after)
    case TypeRef(text, replace, submit) =>
      TextDone(world, text, replace, submit, from, to, sentBefore, before, sentAfter, after)
    case Fill(fields) =>
      fields != [] && exists marks ::
        FieldsDone(world, fields, marks) && |marks| == |fields| + 1
        && marks[0] == Mark(from, sentBefore, before) && marks[|fields|] == Mark(to, sentAfter, after)
  }

  // ----- what can stand in the way of a command

  predicate BlankSubmit(submit: Option<string>) {
    submit.Some? && submit.value != "" && Blank(submit.value)
  }

  /** The value is none that such a control can take. */
  predicate Unfit(value: FieldValue, control: Control) {
    match control
    case TextControl => value.Many?
    case SelectControl(multiple) => !Acceptable(value, multiple)
    case Checkbox => value.Many? || !value.value.Boolean?
    case Radio => value.Many? || !value.value.Boolean? || !value.value.flag
  }

  /** Something is wrong with the field or its value, with the browser or the page, or the page keeps the state of
      a control that was clicked. */
  ghost predicate FieldObjection(world: World, field: Field, from: nat, to: nat) {
    || !field.Field?
    || (world.reply(from).Gives? && Unfit(field.value, world.reply(from).value.control))
    || Trouble(world, from, to)
    || (field.value.One? && field.value.value.Boolean? && StateKept(world, field.value.value.flag, from + 2, to))
  }

  ghost predicate StateKept(world: World, wanted: bool, from: nat, to: nat) {
    exists u :: from <= u < to && world.reply(u).Gives? && world.reply(u).value.checked != wanted
  }

  /** The source of a drag was found somewhere else than before. */
  ghost predicate SourceMoved(world: World, from: nat, to: nat) {
    && world.reply(from).Gives?
    && exists u :: from <= u < to && world.reply(u).Gives? && world.reply(u).value.at != world.reply(from).value.at
  }

  ghost predicate Objection(world: World, command: Command, from: nat, to: nat) {
    match command
    case ClickRef => Trouble(world, from, to)
    case ClickAt(valid, _) => !valid || Trouble(world, from, to)
    case HoverRef => Trouble(world, from, to)
    case DragRefs => Trouble(world, from, to) || SourceMoved(world, from, to)
    case TypeRef(_, _, submit) => Trouble(world, from, to) || BlankSubmit(submit)
    case Fill(fields) =>
      fields == [] || exists i, t :: 0 <= i < |fields| && from <= t <= to && FieldObjection(world, fields[i], t, to)
  }

  // ----- what is turned down before anything is sent

  /** A page script fails, and the host does not flag its failure. */
  predicate Fails(r: Reply) {
    !r.Gives? && !ScriptError(r).flagged
  }

  predicate TurnedDown(world: World, command: Command, t: nat) {
    match command
    case ClickAt(valid, _) => !valid || Fails(world.reply(t))
    case Fill(fields) => fields == [] || FieldTurnedDown(world, fields[0], t)
    case _ => Fails(world.reply(t))
  }

  /** The field is malformed, its control is not found or cannot take the value, or the first script that prepares
      the change fails. */
  predicate FieldTurnedDown(world: World, field: Field, t: nat) {
    || !field.Field? || Fails(world.reply(t))
    || (world.reply(t).Gives?
        && match world.reply(t).value.control
           case TextControl => field.value.Many? || Fails(world.reply(t + 1))
           case SelectControl(multiple) => SelectTurnedDown(world, field.value, multiple, t + 1)
           case Checkbox => BooleanTurnedDown(world, field.value, Checkbox, t + 1)
           case Radio => BooleanTurnedDown(world, field.value, Radio, t + 1))
  }

  predicate SelectTurnedDown(world: World, value: FieldValue, multiple: bool, t: nat) {
    !Acceptable(value, multiple) || (Fails(world.reply(t)) && ScriptError(world.reply(t)).pageScript)
  }

  predicate BooleanTurnedDown(world: World, value: FieldValue, control: Control, t: nat) {
    || Unfit(value, control) || Fails(world.reply(t))
    || (value.One? && value.value.Boolean? && world.reply(t).Gives?
        && world.reply(t).value.checked != value.value.flag && Fails(world.reply(t + 1)))
  }

  /** What a select control can be set to. */
  predicate Acceptable(value: FieldValue, multiple: bool) {
    && (multiple || |Listed(value)| == 1)
    && forall i :: 0 <= i < |Listed(value)| ==> Listed(value)[i].Text? || Listed(value)[i].Number?
  }

  /** The field is a select control named at `t`, the page wrote its options, and the host fails the request,
      unflagged, under the code of a page script failure. */
  predicate WritesUnseen(world: World, t: nat, field: Field) {
    && field.Field? && world.reply(t).Gives? && world.reply(t).value.control.SelectControl?
    && Acceptable(field.value, world.reply(t).value.control.multiple)
    && world.writes(t + 1) && world.reply(t + 1).HostFails?
    && world.reply(t + 1).error.pageScript && !world.reply(t + 1).error.flagged
  }

  /** This happens to the first field of a form, and the call is not cancelled. */
  predicate RunWritesUnseen(world: World, t: nat, command: Command) {
    && command.Fill? && command.fields != [] && world.reply(t).Gives?
    && WritesUnseen(world, t + 1, command.fields[0]) && !world.holds(t + 3)
  }

  lemma ClearNothing(world: World, before: seq<nat>)
    ensures Clear(world, before, before)
  {
  }

  lemma StaleScript(world: World, from: nat, to: nat, before: seq<nat>, after: seq<nat>, u: nat)
    requires Clear(world, before, after) && from <= u < to && !world.reply(u).Gives?
    ensures ScriptError(world.reply(u)).stale && before < after ==> WentAway(world, from, to, before, after)
  {
    if ScriptError(world.reply(u)).stale {
      assert StaleReply(world.reply(u));
    }
  }

  /** What a command of a click tells. */
  lemma LastTap(world: World, start: nat, given: nat, now: nat, told: seq<nat>, before: seq<nat>,
                failure: Option<Error>, advanced: bool)
    requires Clear(world, told, before) && start <= given <= now
    requires failure.None? ==> world.input(given) == Answered(false) && (advanced ==> world.holds(given + 3))
    requires failure.Some? || advanced ==> Trouble(world, given, now)
    requires failure.Some? && failure.value.stale ==> world.input(given).InputFails? && world.input(given).error.stale
    ensures told <= before + [given]
    ensures failure.None? ==> Clear(world, told, before + [given])
    ensures (failure.None? && advanced) || (failure.Some? && failure.value.stale) ==>
      WentAway(world, start, now, told, before + [given])
    ensures failure.Some? || advanced ==> Trouble(world, start, now)
  {
    assert (before + [given])[..|before|] == before;
    if failure.Some? || advanced {
      TroubleIn(world, start, given, now, now);
    }
    hide Trouble;
  }

  lemma NothingClicked(points: seq<Point>)
    ensures Pointing(points, 0) == Moves(points)
  {
  }

  lemma NothingPointed()
    ensures Pointing([], 0) == []
  {
  }

  lemma DragPlan(before: seq<Native>, source: Point, target: Point)
    ensures var plan := Dragging(source, target);
      && before + plan[..1] == before + [Move(source)] && before + plan[..1] + [Press(source, 1)] == before + plan[..2]
      && before + plan[..10] + [Release(target, 1)] == before + plan[..11]
      && plan[9] == DragMove(target)
  {
  }

  lemma DragStep(before: seq<Native>, source: Point, target: Point, step: nat)
    requires 1 <= step <= 8
    ensures var plan := Dragging(source, target);
      before + plan[..step + 1] + [DragMove(Between(source, target, step))] == before + plan[..step + 2]
  {
  }

  lemma PointerDoneLater(world: World, event: Event, hasRef: bool, from: nat, to: nat, end: nat,
                         sentBefore: seq<Native>, before: seq<nat>, sentAfter: seq<Native>, after: seq<nat>)
    requires PointerDone(world, event, hasRef, from, to, sentBefore, before, sentAfter, after) && to <= end
    ensures PointerDone(world, event, hasRef, from, end, sentBefore, before, sentAfter, after)
  {
    hide Clear, PointerSent, Pointing;
    if WentAway(world, from, to, before, after) {
      assert WentAway(world, from, end, before, after) by {
        if u :| from <= u < to && StaleReply(world.reply(u)) {
          assert from <= u < end;
        }
      }
    }
    if u :| from <= u < to && Confirms(world.reply(u), event) {
      assert from <= u < end;
    }
  }

  /** The host never reports a failure of its own under the code of a page script failure. */
  ghost predicate KeepsScriptCode(world: World) {
    forall t :: world.reply(t).HostFails? ==> !world.reply(t).error.pageScript
  }

  class Worker {
    const world: World
    var tick: nat
    var sent: seq<Native>      // every native command attempted
    var moments: seq<nat>      // and when, one moment for each
    var written: nat           // option lists written by page scripts

    constructor (world: World)
      ensures this.world == world && tick == 0 && sent == [] && moments == [] && written == 0
    {
      this.world := world;
      tick, sent, moments, written := 0, [], [], 0;
    }

    method Evaluate() returns (r: Reply)
      modifies this`tick
      ensures r == world.reply(old(tick)) && tick == old(tick) + 1
    {
      r := world.reply(tick);
      tick := tick + 1;
    }

    method Ask() returns (b: bool)
      modifies this`tick
      ensures b == world.holds(old(tick)) && tick == old(tick) + 1
    {
      b := world.holds(tick);
      tick := tick + 1;
    }

    method Dispatch(command: Native) returns (r: InputReply)
      modifies this`tick, this`sent, this`moments
      ensures sent == old(sent) + [command] && moments == old(moments) + [old(tick)]
      ensures r == world.input(old(tick)) && tick == old(tick) + 1
    {
      sent := sent + [command];
      moments := moments + [tick];
      r := world.input(tick);
      tick := tick + 1;
    }

    /** One pointer command. It fails with the browser's error, or when the page moved on or a dialog opened;
        a timeout while a dialog is open means that the command took effect. */
    method ObservedPointer(command: Native, navigationIsResult: bool) returns (failure: Option<Error>)
      modifies this`tick, this`sent, this`moments
      ensures sent == old(sent) + [command] && moments == old(moments) + [old(tick)] && tick > old(tick)
      ensures failure.None? <==>
        && world.input(old(tick)) == Answered(false)
        && (navigationIsResult || !world.holds(old(tick) + 1)) && !world.holds(old(tick) + 2)
      ensures failure.None? ==> tick == old(tick) + 3
      ensures var r := world.input(old(tick));
        r.InputFails? && !(r.error.mouseTimeout && world.holds(old(tick) + 1)) ==> failure == Some(r.error)
      ensures failure.Some? ==> Trouble(world, old(tick), tick)
      ensures failure.Some? && failure.value.stale && navigationIsResult ==>
        world.input(old(tick)).InputFails? && world.input(old(tick)).error.stale
    {
      var r := Dispatch(command);
      var dispatched := r.Answered? && !r.dialogOpened;
      if !dispatched {
        TroubleAt(world, old(tick), old(tick), tick);
      }
      if r.InputFails? {
        var dialog := Ask();
        if !(r.error.mouseTimeout && dialog) {
          return Some(r.error);
        }
      }
      var advanced := Ask();
      if !navigationIsResult && advanced {
        TroubleAt(world, old(tick), tick - 1, tick);
        return Some(Error(false, false, true, false));
      }
      var dialog := Ask();
      if dialog {
        TroubleAt(world, old(tick), tick - 1, tick);
      }
      return if !dispatched || dialog then Some(Fault(true)) else None;
    }

    /** Take the observer off the page again; whatever happens is ignored. */
    method CleanupPointer()
      modifies this`tick
      ensures tick >= old(tick)
    {
      var advanced := Ask();
      var aborted := Ask();
      var dialog := Ask();
      if !advanced && !aborted && !dialog {
        var _ := Evaluate();
      }
    }

    /** The cursor is moved to the target, and again while the target of a click keeps moving. */
    method Aim(event: Event, hasRef: bool, start: Point)
      returns (failure: Option<Error>, target: Point, ghost points: seq<Point>)
      modifies this`tick, this`sent, this`moments
      ensures tick >= old(tick) && Recorded(old(sent), old(moments), sent, moments)
      ensures sent == old(sent) + Moves(points) && 1 <= |points| <= (if event.Click? && hasRef then 4 else 1)
      ensures points[0] == start && forall i :: 0 < i < |points| ==> Returned(world, points[i])
      ensures failure.None? ==> target == points[|points| - 1] && Clear(world, old(moments), moments)
      ensures failure.Some? ==> Trouble(world, old(tick), tick)
    {
      ghost var start0, told := tick, moments;
      target := start;
      failure := ObservedPointer(Move(target), false);
      points := [target];
      if failure.Some? || !(event.Click? && hasRef) {
        return;
      }
      var relocation := 0;
      while true
        invariant sent == old(sent) + Moves(points) && |points| == relocation + 1 <= 4
        invariant target == points[|points| - 1] && tick >= start0
        invariant points[0] == start && forall i :: 0 < i < |points| ==> Returned(world, points[i])
        invariant Clear(world, told, moments) && |moments| == |told| + |points|
        decreases 4 - relocation
      {
        ghost var asked := tick;
        var r := Evaluate();
        if !r.Gives? {
          TroubleAt(world, start0, asked, tick);
          return Some(ScriptError(r)), target, points;
        }
        if !r.value.moved {
          return None, target, points;
        }
        TroubleAt(world, start0, asked, tick);
        if relocation >= 3 {
          return Some(Fault(true)), target, points;
        }
        target := r.value.at;
        ghost var given, before := tick, moments;
        failure := ObservedPointer(Move(target), false);
        points := points + [target];
        if failure.Some? {
          TroubleIn(world, start0, given, tick, tick);
          return;
        }
        ClearAdds(world, told, before, given);
        relocation := relocation + 1;
      }
    }

    /** One command of clicks begun at `start`, the `steps`-th, then the question whether the page moved on. */
    method Tap(command: Native, ghost start: nat, ghost told: seq<nat>, ghost steps: nat)
      returns (failure: Option<Error>, advanced: bool)
      requires Clear(world, told, moments) && StayedPut(world, start, steps)
      requires start <= tick && tick + 3 == NavigationAsked(start, steps)
      modifies this`tick, this`sent, this`moments
      ensures tick > old(tick)
      ensures sent == old(sent) + [command] && moments == old(moments) + [old(tick)]
      ensures failure.None? ==> advanced == world.holds(old(tick) + 3) && tick == old(tick) + 4
      ensures failure.None? ==> Clear(world, told, moments) && (!advanced ==> StayedPut(world, start, steps + 1))
      ensures failure.Some? || advanced ==> Trouble(world, start, tick)
      ensures (failure.None? && advanced) || (failure.Some? && failure.value.stale) ==>
        WentAway(world, start, tick, told, moments)
    {
      hide StayedPut, Clear, WentAway, Trouble, NavigationAsked;
      ghost var given, before := tick, moments;
      advanced := false;
      failure := ObservedPointer(command, true);
      if failure.None? {
        advanced := Ask();
        if advanced {
          TroubleAt(world, given, tick - 1, tick);
        } else {
          StaysPut(world, start, steps);
        }
      }
      LastTap(world, start, given, tick, told, before, failure, advanced);
    }

    /** Press and release, once or twice, at the target. Nothing follows a command after which the page was
        seen to have moved on. */
    method Strike(event: Event, target: Point) returns (o: Outcome, pressed: bool, ghost steps: nat)
      modifies this`tick, this`sent, this`moments
      ensures tick >= old(tick) && Recorded(old(sent), old(moments), sent, moments)
      ensures sent == old(sent) + ClickSteps(target, steps) && steps <= 2 * Clicks(event)
      ensures o.Done? && !o.navigated ==> steps == 2 * Clicks(event) && Clear(world, old(moments), moments)
      ensures pressed <==> steps > 0
      ensures steps > 0 ==> StayedPut(world, old(tick), steps - 1)
      ensures o.Done? ==> (o.navigated <==> steps > 0 && world.holds(NavigationAsked(old(tick), steps - 1)))
      ensures (o.Done? && o.navigated) || (o.Raised? && o.error.stale && steps > 0) ==>
        WentAway(world, old(tick), tick, old(moments), moments)
      ensures o.Raised? || o.navigated ==> Trouble(world, old(tick), tick)
    {
      hide StayedPut, ClickSteps, Clear, Trouble, WentAway, NavigationAsked, Clicks;
      steps, pressed := 0, false;
      ghost var start, told := tick, moments;
      NothingStruck(world, start, target);
      ClearNothing(world, told);
      var count := 1;
      while count <= Clicks(event)
        invariant 1 <= count <= Clicks(event) + 1 && steps == 2 * (count - 1)
        invariant sent == old(sent) + ClickSteps(target, steps) && told <= moments && |moments| == |told| + steps
        invariant (pressed <==> steps > 0) && tick == start + 9 * (count - 1)
        invariant StayedPut(world, start, steps) && (steps > 0 ==> StayedPut(world, start, steps - 1))
        invariant steps > 0 ==> !world.holds(NavigationAsked(start, steps - 1))
        invariant Clear(world, told, moments)
      {
        ghost var asked := tick;
        var r := Evaluate();
        if !r.Gives? {
          TroubleAt(world, start, asked, tick);
          StaleScript(world, start, tick, told, moments, asked);
          return Raised(ScriptError(r)), pressed, steps;
        }
        pressed := true;
        AskedWhen(start, count);
        NextClickStep(old(sent), target, count);
        var failure, advanced := Tap(Press(target, count), start, told, steps);
        steps := steps + 1;
        if failure.Some? {
          return Raised(failure.value), pressed, steps;
        }
        if advanced {
          return Done(true), pressed, steps;
        }
        failure, advanced := Tap(Release(target, count), start, told, steps);
        steps := steps + 1;
        if failure.Some? {
          return Raised(failure.value), pressed, steps;
        }
        if advanced {
          return Done(true), pressed, steps;
        }
        count := count + 1;
      }
      o := Done(false);
    }

    /** The body of the try block. */
    method PointerBody(event: Event, hasRef: bool, start: Point)
      returns (o: Outcome, pressed: bool, finished: bool, ghost points: seq<Point>, ghost steps: nat)
      modifies this`tick, this`sent, this`moments
      ensures tick >= old(tick) && Recorded(old(sent), old(moments), sent, moments)
      ensures sent == old(sent) + Pointing(points, steps)
      ensures 1 <= |points| <= (if event.Click? && hasRef then 4 else 1) && steps <= 2 * Clicks(event)
      ensures points[0] == start && forall i :: 0 < i < |points| ==> Returned(world, points[i])
      ensures pressed <==> steps > 0
      ensures o.Done? ==> (if o.navigated then pressed else steps == 2 * Clicks(event))
      ensures o.Done? && !o.navigated ==>
        Clear(world, old(moments), moments) && exists u :: old(tick) <= u < tick && Confirms(world.reply(u), event)
      ensures (o.Done? && o.navigated) || (o.Raised? && o.error.stale && pressed) ==>
        WentAway(world, old(tick), tick, old(moments), moments)
      ensures o.Raised? || o.navigated ==> Trouble(world, old(tick), tick)
    {
      hide Clear, WentAway, Trouble, Moves, ClickSteps;
      ghost var began, told := tick, moments;
      var failure, target;
      steps, pressed, finished := 0, false, false;
      failure, target, points := Aim(event, hasRef, start);
      if failure.Some? {
        NothingClicked(points);
        return Raised(failure.value), pressed, finished, points, steps;
      }
      ghost var aimed, moved := tick, moments;
      o, pressed, steps := Strike(event, target);
      if o.Raised? || o.navigated {
        TroubleIn(world, began, aimed, tick, tick);
        if o.Done? || (o.error.stale && steps > 0) {
          WentAwayAfter(world, began, aimed, tick, tick, told, moved, moments);
        }
        finished := o.Done?;
        return;
      }
      ClearJoins(world, told, moved, moments);
      ghost var asked := tick;
      var r := Evaluate();
      if !r.Gives? {
        TroubleAt(world, began, asked, tick);
        StaleScript(world, began, tick, told, moments, asked);
        return Raised(ScriptError(r)), pressed, finished, points, steps;
      }
      finished := true;
      if (r.value.absent || !r.value.observed) && !(!r.value.absent && r.value.detached && event.Click?) {
        TroubleAt(world, began, asked, tick);
        return Raised(Fault(true)), pressed, finished, points, steps;
      }
      assert Confirms(world.reply(asked), event);
    }

    /** Click, double click or hover. Whatever the world does: an unflagged failure sent nothing, nothing is sent
        twice, and a success is either complete and confirmed, or the page went away under the clicks. */
    method PointerAction(event: Event, hasRef: bool) returns (o: Outcome, ghost points: seq<Point>, ghost steps: nat)
      modifies this`tick, this`sent, this`moments
      ensures tick > old(tick) && Recorded(old(sent), old(moments), sent, moments)
      ensures Unflagged(o) ==> sent == old(sent)
      ensures Unflagged(o) <==> Fails(world.reply(old(tick)))
      ensures sent == old(sent) + Pointing(points, steps)
      ensures |points| <= (if event.Click? && hasRef then 4 else 1) && steps <= 2 * Clicks(event)
      ensures steps > 0 ==> points != []
      ensures points != [] ==> world.reply(old(tick)).Gives? && points[0] == world.reply(old(tick)).value.at
      ensures forall i :: 0 < i < |points| ==> Returned(world, points[i])
      ensures o.Done? ==> points != [] && (if o.navigated then steps > 0 else steps == 2 * Clicks(event))
      ensures o.Done? && !o.navigated ==>
        Clear(world, old(moments), moments) && exists u :: old(tick) <= u < tick && Confirms(world.reply(u), event)
      ensures o.Done? && o.navigated ==> WentAway(world, old(tick), tick, old(moments), moments)
      ensures o.Done? ==> PointerDone(world, event, hasRef, old(tick), tick, old(sent), old(moments), sent, moments)
      ensures o.Raised? || o.navigated ==> Trouble(world, old(tick), tick)
    {
      hide Clear, WentAway, Trouble, Pointing, Clicks;
      points, steps := [], 0;
      NothingPointed();
      ghost var began, told := tick, moments;
      var prepared := Evaluate();
      if !prepared.Gives? {
        TroubleAt(world, began, began, tick);
        return Raised(ScriptError(prepared)), points, steps;
      }
      if prepared.value.absent {
        CleanupPointer();
        TroubleAt(world, began, began, tick);
        return Raised(Fault(true)), points, steps;
      }
      var pressed, finished;
      o, pressed, finished, points, steps := PointerBody(event, hasRef, prepared.value.at);
      ghost var ended := tick;
      if o.Raised? || o.navigated {
        TroubleIn(world, began, began + 1, ended, ended);
      }
      if (o.Done? && o.navigated) || (o.Raised? && o.error.stale && pressed) {
        ClearNothing(world, told);
        WentAwayAfter(world, began, began + 1, ended, ended, told, told, moments);
      }
      if o.Raised? {
        o := if pressed && !event.Hover? && o.error.stale then Done(true) else Raised(Flag(o.error));
      }
      if !finished {
        CleanupPointer();
      }
      if o.Raised? || o.navigated {
        TroubleIn(world, began, began, ended, tick);
        if o.Done? {
          ClearNothing(world, told);
          WentAwayAfter(world, began, began, ended, tick, told, told, moments);
        }
      }
      if o.Done? {
        assert PointerSent(world, event, hasRef, began, points, steps, old(sent), sent);
      }
    }

    /** Down and up, unless a dialog opens or the page goes away in between. */
    method PressKey(key: string) returns (delivered: bool, failure: Option<Error>, ghost steps: nat)
      modifies this`tick, this`sent, this`moments
      ensures tick >= old(tick) && Recorded(old(sent), old(moments), sent, moments)
      ensures steps <= 2 && sent == old(sent) + [KeyDown(key), KeyUp(key)][..steps]
      ensures delivered && failure.None? ==> steps == 2 && Clear(world, old(moments), moments)
      ensures failure.Some? || !delivered ==> Blank(key) || Trouble(world, old(tick), tick)
    {
      if Blank(key) {
        return false, Some(Fault(false)), 0;
      }
      ghost var began := tick;
      var down := Dispatch(KeyDown(key));
      steps := 1;
      if down.InputFails? {
        TroubleAt(world, began, began, tick);
        return false, Some(down.error), steps;
      }
      var advanced := Ask();
      if down.dialogOpened || advanced {
        TroubleAt(world, began, if down.dialogOpened then began else began + 1, tick);
        return false, None, steps;
      }
      var up := Dispatch(KeyUp(key));
      steps := 2;
      if up.InputFails? || up.dialogOpened {
        TroubleAt(world, began, tick - 1, tick);
      }
      if up.InputFails? {
        return false, Some(up.error), steps;
      }
      return !up.dialogOpened, None, steps;
    }

    /** The text is selected, or the cursor moved to its end. */
    method SelectText(replace: bool) returns (failure: Option<Error>)
      modifies this`tick, this`sent, this`moments
      ensures tick > old(tick) && sent == old(sent) + [Select(replace)] && moments == old(moments) + [old(tick)]
      ensures failure.None? ==> world.input(old(tick)) == Answered(false)
      ensures failure.Some? ==> Trouble(world, old(tick), tick)
    {
      ghost var given := tick;
      var selected := Dispatch(Select(replace));
      if selected.InputFails? {
        TroubleAt(world, given, given, tick);
        return Some(selected.error);
      }
      var advanced := Ask();
      if selected.dialogOpened || advanced {
        TroubleAt(world, given, if selected.dialogOpened then given else given + 1, tick);
        return Some(Fault(true));
      }
      return None;
    }

    /** Select, verify the focus, write, and verify what was written. */
    method EditBody(text: string, replace: bool) returns (failure: Option<Error>, ghost edits: nat)
      modifies this`tick, this`sent, this`moments
      ensures tick >= old(tick) && Recorded(old(sent), old(moments), sent, moments)
      ensures edits <= |Editing(text, replace, None)|
      ensures sent == old(sent) + Editing(text, replace, None)[..edits]
      ensures failure.None? ==> edits == |Editing(text, replace, None)| && Clear(world, old(moments), moments)
      ensures failure.None? ==> exists u :: old(tick) <= u < tick && Applied(world.reply(u))
      ensures failure.Some? ==> Trouble(world, old(tick), tick)
    {
      hide Clear, Trouble;
      ghost var began, told := tick, moments;
      edits := 0;
      var r := Evaluate();
      if !r.Gives? {
        TroubleAt(world, began, began, tick);
        return Some(ScriptError(r)), edits;
      }
      if r.value.absent {
        TroubleAt(world, began, began, tick);
        return Some(Fault(false)), edits;
      }
      ghost var given := tick;
      failure := SelectText(replace);
      edits := 1;
      assert Editing(text, replace, None)[..1] == [Select(replace)];
      if failure.Some? {
        TroubleIn(world, began, given, tick, tick);
        return;
      }
      ClearNothing(world, told);
      ClearAdds(world, told, told, given);
      r := Evaluate();
      if !r.Gives? {
        TroubleAt(world, began, tick - 1, tick);
        return Some(ScriptError(r)), edits;
      }
      ghost var writing, marked := tick, moments;
      failure, edits := WriteText(text, replace);
      if failure.Some? {
        TroubleIn(world, began, writing, tick, tick);
        return;
      }
      ClearJoins(world, told, marked, moments);
      r := Evaluate();
      if !r.Gives? || r.value.absent || !r.value.applied {
        TroubleAt(world, began, tick - 1, tick);
      }
      if !r.Gives? {
        failure := Some(ScriptError(r));
      } else if r.value.absent || !r.value.applied {
        failure := Some(Fault(true));
      } else {
        assert Applied(world.reply(tick - 1));
      }
    }

    /** The selected text is replaced, or cleared. */
    method WriteText(text: string, replace: bool) returns (failure: Option<Error>, ghost edits: nat)
      modifies this`tick, this`sent, this`moments
      ensures tick >= old(tick) && Recorded(old(sent), old(moments), sent, moments)
      ensures 1 <= edits <= |Editing(text, replace, None)|
      ensures sent == old(sent) + Editing(text, replace, None)[1..edits]
      ensures failure.None? ==> edits == |Editing(text, replace, None)| && Clear(world, old(moments), moments)
      ensures failure.Some? ==> Trouble(world, old(tick), tick)
    {
      ghost var plan := Editing(text, replace, None);
      edits := 1;
      if text != "" {
        ghost var given := tick;
        var inserted := Dispatch(Insert(text));
        edits := 2;
        assert plan[1..2] == [Insert(text)];
        if inserted.InputFails? {
          TroubleAt(world, given, given, tick);
          return Some(inserted.error), edits;
        }
        var advanced := Ask();
        if inserted.dialogOpened || advanced {
          TroubleAt(world, given, if inserted.dialogOpened then given else given + 1, tick);
        }
        return if inserted.dialogOpened || advanced then Some(Fault(true)) else None, edits;
      }
      failure := None;
      if replace {
        ghost var more;
        assert "Backspace"[0] == 'B' && !Blank("Backspace");
        failure, more := DeliverKey("Backspace");
        assert plan[1..1 + more] == [KeyDown("Backspace"), KeyUp("Backspace")][..more];
        edits := 1 + more;
      }
    }

    /** A key press that must be delivered. */
    method DeliverKey(key: string) returns (failure: Option<Error>, ghost steps: nat)
      modifies this`tick, this`sent, this`moments
      ensures tick >= old(tick) && Recorded(old(sent), old(moments), sent, moments)
      ensures steps <= 2 && sent == old(sent) + [KeyDown(key), KeyUp(key)][..steps]
      ensures failure.None? ==> steps == 2 && Clear(world, old(moments), moments)
      ensures failure.Some? ==> Blank(key) || Trouble(world, old(tick), tick)
    {
      var delivered;
      delivered, failure, steps := PressKey(key);
      if failure.None? && !delivered {
        failure := Some(Fault(true));
      }
    }

    /** The body of the try block of `typeText`, after the click. */
    method TypeBody(text: string, replace: bool, submit: Option<string>) returns (failure: Option<Error>, ghost edits: nat)
      modifies this`tick, this`sent, this`moments
      ensures tick >= old(tick) && Recorded(old(sent), old(moments), sent, moments)
      ensures edits <= |Editing(text, replace, submit)|
      ensures sent == old(sent) + Editing(text, replace, submit)[..edits]
      ensures failure.None? ==> edits == |Editing(text, replace, submit)| && Clear(world, old(moments), moments)
      ensures failure.None? ==> exists u :: old(tick) <= u < tick && Applied(world.reply(u))
      ensures failure.Some? ==> BlankSubmit(submit) || Trouble(world, old(tick), tick)
    {
      hide Clear, Trouble, Blank;
      ghost var began, told := tick, moments;
      ghost var plan, head := Editing(text, replace, submit), Editing(text, replace, None);
      failure, edits := EditBody(text, replace);
      assert head[..edits] == plan[..edits];
      if failure.Some? || submit.None? || submit.value == "" {
        return;
      }
      ghost var asked := tick;
      var r := Evaluate();
      if !r.Gives? {
        TroubleAt(world, began, asked, tick);
        return Some(ScriptError(r)), edits;
      }
      ghost var pressing, marked := tick, moments;
      ghost var more;
      failure, more := DeliverKey(submit.value);
      assert plan[..edits + more] == head + [KeyDown(submit.value), KeyUp(submit.value)][..more];
      edits := edits + more;
      if failure.None? {
        ClearJoins(world, told, marked, moments);
      } else if !Blank(submit.value) {
        TroubleIn(world, began, pressing, tick, tick);
      }
    }

    /** A click that focuses the control, then the editing commands in order, each at most once. */
    method TypeText(text: string, replace: bool, submit: Option<string>)
      returns (o: Outcome, ghost points: seq<Point>, ghost clicks: nat, ghost edits: nat)
      modifies this`tick, this`sent, this`moments
      ensures tick >= old(tick) && Recorded(old(sent), old(moments), sent, moments)
      ensures Unflagged(o) ==> sent == old(sent)
      ensures Unflagged(o) <==> Fails(world.reply(old(tick)))
      ensures edits <= |Editing(text, replace, submit)| && clicks <= 2 && |points| <= 4 && (clicks > 0 ==> points != [])
      ensures sent == old(sent) + Pointing(points, clicks) + Editing(text, replace, submit)[..edits]
      ensures edits > 0 ==> clicks == 2
      ensures o.Done? ==> clicks == 2 && edits == |Editing(text, replace, submit)|
      ensures o.Done? ==> TextDone(world, text, replace, submit, old(tick), tick, old(sent), old(moments), sent, moments)
      ensures o.Raised? ==> BlankSubmit(submit) || Trouble(world, old(tick), tick)
    {
      hide Clear, WentAway, Trouble, Pointing, Editing, Blank, PointerDone;
      ghost var began, told := tick, moments;
      edits := 0;
      o, points, clicks := PointerAction(Click, true);
      if o.Raised? {
        return;
      }
      if o.navigated {
        return Raised(Fault(true)), points, clicks, edits;
      }
      ghost var typing, marked, clicked := tick, moments, sent;
      assert PointerSent(world, Click, true, began, points, 2, old(sent), old(sent) + Pointing(points, 2));
      var failure;
      failure, edits := TypeBody(text, replace, submit);
      o := if failure.Some? then Raised(Flag(failure.value)) else Done(false);
      if failure.None? {
        ClearJoins(world, told, marked, moments);
        ghost var plan := Editing(text, replace, submit);
        assert plan[..|plan|] == plan;
      } else if !BlankSubmit(submit) {
        TroubleIn(world, began, typing, tick, tick);
      }
    }

    /** The body of the try block of `drag`. `held` while the button may be down. */
    method DragBody(points: Value) returns (o: Outcome, held: bool, finished: bool, target: Point, ghost steps: nat)
      modifies this`tick, this`sent, this`moments
      ensures tick >= old(tick) && Recorded(old(sent), old(moments), sent, moments)
      ensures steps <= 11 && sent == old(sent) + Dragging(points.at, target)[..steps]
      ensures steps > 1 ==> exists t: nat ::
        && old(tick) <= t < tick && world.reply(t).Gives?
        && world.reply(t).value.at == points.at && world.reply(t).value.other == target
      ensures held ==> steps >= 2
      ensures o.Done? ==> steps == 11 && !held && Clear(world, old(moments), moments)
      ensures o.Done? ==> exists u :: old(tick) <= u < tick && Observed(world.reply(u))
      ensures o.Raised? ==>
        || Trouble(world, old(tick), tick)
        || exists u :: old(tick) <= u < tick && world.reply(u).Gives? && world.reply(u).value.at != points.at
    {
      hide Trouble, Clear, Dragging;
      ghost var plan, began, told := Dragging(points.at, points.other), tick, moments;
      ClearNothing(world, told);
      target, steps, held, finished := points.other, 1, false, false;
      DragPlan(old(sent), points.at, target);
      ghost var given, before := tick, moments;
      var failure := ObservedPointer(Move(points.at), false);
      if failure.Some? {
        return Raised(failure.value), held, finished, target, steps;
      }
      ClearAdds(world, told, before, given);
      ghost var checked := tick;
      var r := Evaluate();
      if !r.Gives? {
        TroubleAt(world, began, checked, tick);
        return Raised(ScriptError(r)), held, finished, target, steps;
      }
      if r.value.absent || r.value.at != points.at {
        if r.value.absent {
          TroubleAt(world, began, checked, tick);
        } else {
          assert world.reply(checked).Gives? && world.reply(checked).value.at != points.at;
        }
        return Raised(Fault(false)), held, finished, target, steps;
      }
      target := r.value.other;
      assert world.reply(checked).Gives? && world.reply(checked).value == r.value;
      plan := Dragging(points.at, target);
      DragPlan(old(sent), points.at, target);
      held := true;
      given, before := tick, moments;
      failure := ObservedPointer(Press(points.at, 1), false);
      steps := 2;
      if failure.Some? {
        TroubleIn(world, began, given, tick, tick);
        return Raised(failure.value), held, finished, target, steps;
      }
      ClearAdds(world, told, before, given);
      var step := 1;
      while step <= 8
        invariant 1 <= step <= 9 && steps == step + 1
        invariant sent == old(sent) + plan[..steps] && told <= moments && |moments| == |told| + steps
        invariant tick > checked && Clear(world, told, moments)
      {
        given, before := tick, moments;
        failure := ObservedPointer(DragMove(Between(points.at, target, step)), false);
        DragStep(old(sent), points.at, target, step);
        steps := steps + 1;
        if failure.Some? {
          TroubleIn(world, began, given, tick, tick);
          return Raised(failure.value), held, finished, target, steps;
        }
        ClearAdds(world, told, before, given);
        step := step + 1;
      }
      given, before := tick, moments;
      failure := ObservedPointer(Release(target, 1), false);
      steps := 11;
      if failure.Some? {
        TroubleIn(world, began, given, tick, tick);
        return Raised(failure.value), held, finished, target, steps;
      }
      ClearAdds(world, told, before, given);
      held := false;
      ghost var asked := tick;
      r := Evaluate();
      if !r.Gives? {
        TroubleAt(world, began, asked, tick);
        return Raised(ScriptError(r)), held, finished, target, steps;
      }
      finished := true;
      if r.value.absent || !r.value.observed {
        TroubleAt(world, began, asked, tick);
      } else {
        assert Observed(world.reply(asked));
      }
      o := if r.value.absent || !r.value.observed then Raised(Fault(true)) else Done(false);
    }

    /** A drag that fails with the button down is cancelled; only then is the button released, at the source. */
    method CancelDrag(source: Point) returns (ghost undo: seq<Native>)
      modifies this`tick, this`sent, this`moments
      ensures tick >= old(tick) && Recorded(old(sent), old(moments), sent, moments)
      ensures sent == old(sent) + undo && undo <= [CancelDragging, Release(source, 1)]
    {
      undo := [];
      var advanced := Ask();
      var aborted := Ask();
      var dialog := Ask();
      if advanced || aborted || dialog {
        return;
      }
      var r := Dispatch(CancelDragging);
      undo := [CancelDragging];
      if r.InputFails? {
        return;
      }
      advanced := Ask();
      if !advanced {
        var _ := Dispatch(Release(source, 1));
        undo := [CancelDragging, Release(source, 1)];
      }
    }

    /** The drag plan in order up to a failure, then possibly its undoing: an undone drag releases at the source. */
    method Drag() returns (o: Outcome, ghost source: Point, ghost target: Point, ghost steps: nat, ghost undo: seq<Native>)
      modifies this`tick, this`sent, this`moments
      ensures tick >= old(tick) && Recorded(old(sent), old(moments), sent, moments)
      ensures Unflagged(o) ==> sent == old(sent)
      ensures Unflagged(o) <==> Fails(world.reply(old(tick)))
      ensures steps <= 11 && sent == old(sent) + Dragging(source, target)[..steps] + undo
      ensures steps > 0 ==> world.reply(old(tick)).Gives? && source == world.reply(old(tick)).value.at
      ensures steps > 1 ==> exists t: nat ::
        world.reply(t).Gives? && world.reply(t).value.at == source && world.reply(t).value.other == target
      ensures undo <= [CancelDragging, Release(source, 1)] && (undo != [] ==> o.Raised? && steps >= 2)
      ensures o.Done? ==> steps == 11
      ensures o.Done? ==> DragDone(world, old(tick), tick, old(sent), old(moments), sent, moments)
      ensures o.Raised? ==> Trouble(world, old(tick), tick) || SourceMoved(world, old(tick), tick)
    {
      hide Clear, Trouble, Dragging;
      ghost var began := tick;
      var prepared := Evaluate();
      steps, undo := 0, [];
      if !prepared.Gives? {
        source, target := Point(0.0, 0.0), Point(0.0, 0.0);
        TroubleAt(world, began, began, tick);
        return Raised(ScriptError(prepared)), source, target, steps, undo;
      }
      source, target := prepared.value.at, prepared.value.other;
      if prepared.value.absent {
        CleanupPointer();
        TroubleAt(world, began, began, tick);
        return Raised(Fault(true)), source, target, steps, undo;
      }
      var held, finished;
      o, held, finished, target, steps := DragBody(prepared.value);
      ghost var ended := tick;
      if o.Raised? {
        o := Raised(Flag(o.error));
      }
      if held {
        undo := CancelDrag(prepared.value.at);
      }
      if !finished {
        CleanupPointer();
      }
      if o.Raised? && Trouble(world, began + 1, ended) {
        TroubleIn(world, began, began + 1, ended, tick);
      }
      if o.Done? {
        assert Dragging(source, target)[..11] == Dragging(source, target);
      }
    }

    /** `selectOptions` in the page: it throws only before it writes. */
    method EvaluateSelect() returns (r: Reply)
      modifies this`tick, this`written
      ensures r == world.reply(old(tick))
      ensures written == old(written) + (if !r.PageThrows? && world.writes(old(tick)) then 1 else 0) && tick == old(tick) + 1
    {
      r := world.reply(tick);
      if !r.PageThrows? && world.writes(tick) {
        written := written + 1;
      }
      tick := tick + 1;
    }

    /** An unflagged failure wrote options in exactly one case: the host fails the request under the code of
        a page script failure, after the page wrote. */
    method SetSelectValue(value: FieldValue, multiple: bool) returns (o: Outcome)
      modifies this`tick, this`written
      ensures tick >= old(tick) && old(written) <= written <= old(written) + 1
      ensures
        (Unflagged(o) && written != old(written)) <==>
        (var r := world.reply(old(tick));
          Acceptable(value, multiple) && r.HostFails? && r.error.pageScript && !r.error.flagged && world.writes(old(tick)))
      ensures Unflagged(o) && written != old(written) ==> tick == old(tick) + 1
      ensures Unflagged(o) <==> SelectTurnedDown(world, value, multiple, old(tick))
      ensures o.Done? ==> Acceptable(value, multiple) && Applied(world.reply(old(tick)))
      ensures o.Raised? ==> !Acceptable(value, multiple) || Trouble(world, old(tick), tick)
    {
      var values := Listed(value);
      if !multiple && |values| != 1 {
        return Raised(Fault(false));
      }
      if exists i :: 0 <= i < |values| && !(values[i].Text? || values[i].Number?) {
        return Raised(Fault(false));
      }
      var r := EvaluateSelect();
      if !r.Gives? || r.value.absent || !r.value.applied {
        TroubleAt(world, old(tick), old(tick), tick);
      }
      if !r.Gives? {
        var e := ScriptError(r);
        return Raised(if e.pageScript then e else Flag(e));
      }
      o := if r.value.absent || !r.value.applied then Raised(Fault(true)) else Done(false);
    }

    /** A control that already has the wanted value is left alone; another is clicked, and read again. */
    method SetBooleanControl(radio: bool, value: FieldValue) returns (o: Outcome)
      modifies this`tick, this`sent, this`moments
      ensures tick >= old(tick) && Recorded(old(sent), old(moments), sent, moments)
      ensures Unflagged(o) ==> sent == old(sent)
      ensures Unflagged(o) <==> BooleanTurnedDown(world, value, if radio then Radio else Checkbox, old(tick))
      ensures o.Done? ==> BooleanDone(world, value, old(tick), tick, old(sent), old(moments), sent, moments)
      ensures o.Done? && radio ==> value.value.flag
      ensures o.Raised? ==>
        || Unfit(value, if radio then Radio else Checkbox) || Trouble(world, old(tick), tick)
        || (value.One? && value.value.Boolean? && StateKept(world, value.value.flag, old(tick) + 1, tick))
    {
      hide Clear, Trouble, PointerDone, WentAway;
      if !value.One? || !value.value.Boolean? || (radio && !value.value.flag) {
        return Raised(Fault(false));
      }
      ghost var began := tick;
      var wanted := value.value.flag;
      var r := Evaluate();
      if !r.Gives? {
        TroubleAt(world, began, began, tick);
        return Raised(ScriptError(r));
      }
      if r.value.checked == wanted {
        return Done(false);
      }
      var clicked, _, _ := PointerAction(Click, true);
      if clicked.Raised? {
        TroubleIn(world, began, began + 1, tick, tick);
        return clicked;
      }
      ghost var again := tick;
      r := Evaluate();
      if !r.Gives? {
        TroubleAt(world, began, again, tick);
        return Raised(Flag(ScriptError(r)));
      }
      assert r == world.reply(again);
      PointerDoneLater(world, Click, true, began + 1, again, tick, old(sent), old(moments), sent, moments);
      o := if r.value.checked != wanted then Raised(Fault(true)) else Done(false);
    }

    /** An unflagged failure sent nothing, and wrote options in exactly that case. */
    method FillField(field: Field) returns (o: Outcome)
      modifies this`tick, this`sent, this`moments, this`written
      ensures tick >= old(tick) && (o.Done? ==> tick > old(tick)) && Recorded(old(sent), old(moments), sent, moments)
      ensures Unflagged(o) ==> sent == old(sent)
      ensures Unflagged(o) <==> FieldTurnedDown(world, field, old(tick))
      ensures (Unflagged(o) && written != old(written)) <==> WritesUnseen(world, old(tick), field)
      ensures WritesUnseen(world, old(tick), field) ==> tick == old(tick) + 2 && written == old(written) + 1
      ensures o.Done? ==> FieldDone(world, field, old(tick), tick, old(sent), old(moments), sent, moments)
      ensures o.Raised? ==> FieldObjection(world, field, old(tick), tick)
    {
      hide Clear, Trouble, TextDone, BooleanDone, StateKept, Blank;
      if !field.Field? {
        return Raised(Fault(false));
      }
      ghost var began := tick;
      var r := Evaluate();
      if !r.Gives? {
        TroubleAt(world, began, began, tick);
        return Raised(ScriptError(r));
      }
      match r.value.control {
        case TextControl =>
          if field.value.Many? {
            return Raised(Fault(false));
          }
          var r, _, _, _ := TypeText(Typed(field.value.value), field.replace, None);
          o := r;
        case SelectControl(multiple) => o := SetSelectValue(field.value, multiple);
        case Checkbox => o := SetBooleanControl(false, field.value);
        case Radio => o := SetBooleanControl(true, field.value);
      }
      if o.Raised? && Trouble(world, began + 1, tick) {
        TroubleIn(world, began, began + 1, tick, tick);
      }
    }

    /** After the first field that was filled, every failure is flagged; on success all fields were filled, in order. */
    method FillForm(fields: seq<Field>) returns (o: Outcome, ghost marks: seq<Mark>)
      modifies this`tick, this`sent, this`moments, this`written
      ensures tick >= old(tick) && Recorded(old(sent), old(moments), sent, moments)
      ensures Unflagged(o) ==> sent == old(sent)
      ensures Unflagged(o) <==> fields == [] || FieldTurnedDown(world, fields[0], old(tick))
      ensures (Unflagged(o) && written != old(written)) <==> fields != [] && WritesUnseen(world, old(tick), fields[0])
      ensures Unflagged(o) && written != old(written) ==> tick == old(tick) + 2 && written == old(written) + 1
      ensures o.Done? ==>
        && fields != [] && |marks| == |fields| + 1 && FieldsDone(world, fields, marks)
        && marks[0] == Mark(old(tick), old(sent), old(moments)) && marks[|fields|] == Mark(tick, sent, moments)
      ensures o.Raised? ==>
        || fields == []
        || exists i, t :: 0 <= i < |fields| && old(tick) <= t <= tick && FieldObjection(world, fields[i], t, tick)
    {
      hide FieldDone, FieldObjection, WritesUnseen, FieldTurnedDown;
      ghost var start := Mark(tick, sent, moments);
      marks := [start];
      if fields == [] {
        return Raised(Fault(false)), marks;
      }
      var filled := 0;
      while filled < |fields|
        invariant filled <= |fields| && |marks| == filled + 1 && FieldsDone(world, fields, marks)
        invariant marks[0] == start && marks[filled] == Mark(tick, sent, moments)
        invariant tick >= start.tick && Recorded(start.sent, start.moments, sent, moments)
        invariant if filled == 0 then tick == old(tick) && sent == old(sent) && written == old(written)
          else !WritesUnseen(world, old(tick), fields[0]) && !FieldTurnedDown(world, fields[0], old(tick))
      {
        ghost var asked, before := tick, marks[filled];
        o := FillField(fields[filled]);
        if o.Raised? {
          assert FieldObjection(world, fields[filled], asked, tick);
          if filled > 0 {
            o := Raised(Flag(o.error));
          }
          return;
        }
        ghost var next := Mark(tick, sent, moments);
        assert FieldBetween(world, fields[filled], before, next);
        FieldsGrow(world, fields, marks, next);
        marks := marks + [next];
        filled := filled + 1;
      }
      o := Done(false);
    }

    /** A failure that is not flagged sent nothing; a success performed the command; and a failure has a cause. */
    method Execute(command: Command) returns (o: Outcome)
      modifies this`tick, this`sent, this`moments, this`written
      ensures tick >= old(tick) && Recorded(old(sent), old(moments), sent, moments)
      ensures Unflagged(o) ==> sent == old(sent)
      ensures Unflagged(o) <==> TurnedDown(world, command, old(tick))
      ensures (Unflagged(o) && written != old(written)) <==>
        command.Fill? && command.fields != [] && WritesUnseen(world, old(tick), command.fields[0])
      ensures Unflagged(o) && written != old(written) ==> tick == old(tick) + 2 && written == old(written) + 1
      ensures o.Done? ==> Performed(world, command, old(tick), tick, old(sent), old(moments), sent, moments)
      ensures o.Raised? ==> Objection(world, command, old(tick), tick)
    {
      hide Clear, WentAway, Trouble, PointerDone, TextDone, DragDone, FieldsDone, FieldObjection;
      hide WritesUnseen, FieldTurnedDown, Blank;
      match command {
        case ClickRef =>
          var r, _, _ := PointerAction(Click, true);
          o := r;
        case ClickAt(valid, double) =>
          if !valid {
            return Raised(Fault(false));
          }
          var r, _, _ := PointerAction(if double then DoubleClick else Click, false);
          o := r;
        case HoverRef =>
          var r, _, _ := PointerAction(Hover, true);
          o := r;
        case DragRefs =>
          var r, _, _, _, _ := Drag();
          o := r;
        case TypeRef(text, replace, submit) =>
          var r, _, _, _ := TypeText(text, replace, submit);
          o := r;
        case Fill(fields) =>
          var r, _ := FillForm(fields);
          o := r;
      }
    }

    /** What the main process is told. `succeeded`: the call was not cancelled, and the command was performed.
        `failed`: exactly when the handshake fails or the command is turned down, without a flag; no native command
        was sent, and no option was written, except in exactly one case, which a host that keeps the code to page
        scripts excludes. Everything else is indeterminate. A command that nothing stands in the way of succeeds. */
    method Run(command: Command) returns (status: Status)
      modifies this`tick, this`sent, this`moments, this`written
      ensures tick > old(tick) && Recorded(old(sent), old(moments), sent, moments)
      ensures world.holds(tick - 1) ==> status == Indeterminate
      ensures status == Succeeded ==>
        && !world.holds(tick - 1) && world.reply(old(tick)).Gives?
        && Performed(world, command, old(tick) + 1, tick - 1, old(sent), old(moments), sent, moments)
      ensures status != Succeeded ==>
        || world.holds(tick - 1) || !world.reply(old(tick)).Gives? || Objection(world, command, old(tick) + 1, tick - 1)
      ensures status == Failed <==>
        && !world.holds(tick - 1)
        && if world.reply(old(tick)).Gives? then TurnedDown(world, command, old(tick) + 1) else Fails(world.reply(old(tick)))
      ensures status == Failed ==> sent == old(sent)
      ensures sent != old(sent) ==>
        || Performed(world, command, old(tick) + 1, tick - 1, old(sent), old(moments), sent, moments)
        || status == Indeterminate
      ensures (status == Failed && written != old(written)) <==> RunWritesUnseen(world, old(tick), command)
      ensures status == Failed && written != old(written) ==> written == old(written) + 1
      ensures KeepsScriptCode(world) && status == Failed ==> written == old(written)
    {
      hide WritesUnseen, Performed, Objection, TurnedDown;
      KeptCodeHidesNothing(world, tick, command);
      var domains := Evaluate();       // the handshake of the target
      var o;
      if !domains.Gives? {
        o := Raised(ScriptError(domains));
      } else {
        o := Execute(command);
      }
      var aborted := Ask();
      status :=
        if aborted then Indeterminate else if o.Done? then Succeeded else if o.error.flagged then Indeterminate else Failed;
    }
  }

  lemma KeptCodeHidesNothing(world: World, t: nat, command: Command)
    ensures KeepsScriptCode(world) ==> !RunWritesUnseen(world, t, command)
  {
  }

  /** A world in which the host breaks that condition: a form is reported as failed after an option was written. */
  method FailedAfterWriting() returns (worker: Worker, status: Status)
    ensures status == Failed && worker.written == 1 && worker.sent == [] && !KeepsScriptCode(worker.world)
  {
    var select := Value(false, Point(0.0, 0.0), Point(0.0, 0.0), false, false, false, false, false, SelectControl(false));
    var world := World(
      t => if t < 2 then Gives(select) else HostFails(Error(false, true, false, false)),
      t => Answered(false), t => false, t => true);
    worker := new Worker(world);
    var fields := [Field(One(Text("a")), true)];
    assert RunWritesUnseen(world, 0, Fill(fields));
    assert world.reply(2).HostFails? && world.reply(2).error.pageScript;
    status := worker.Run(Fill(fields));
  }
}
