/** Mutation commands and the checks a batch passes before any transaction starts. */
module Commands {
  import opened Results
  import opened Schema
  import opened Values

  datatype Kind = CreateRecord | UpdateRecord | DeleteRecord | RestoreRecord | OtherKind

  /** An option named by identity or, when `optionId` is empty, by name and color. */
  datatype ChoiceOption = ChoiceOption(optionId: string, name: string, color: string)

  datatype ChoiceAssignment = ChoiceAssignment(
    fieldId: string, expectedRevision: int, options: seq<ChoiceOption>, optionsPresent: bool)

  datatype Command = Command(
    kind: Kind, recordId: string, expectedRevision: int,
    values: Option<Cells>,
    set_: Cells, setPresent: bool,
    unset: seq<string>, unsetPresent: bool,
    choices: seq<ChoiceAssignment>, choicesPresent: bool)

  // ----- one command -----

  predicate ValidOption(lib: Library, o: ChoiceOption) {
    if o.optionId != "" then lib.optionId(o.optionId) && o.name == "" && o.color == ""
    else lib.optionName(o.name).Some? && lib.optionColor(o.color)
  }

  predicate ValidChoice(lib: Library, c: Command, choice: ChoiceAssignment) {
    && lib.fieldId(choice.fieldId) && choice.expectedRevision >= 1
    && choice.optionsPresent && |choice.options| <= 100
    && (c.values.Some? ==> choice.fieldId !in c.values.value)
    && choice.fieldId !in c.set_ && choice.fieldId !in c.unset
    && forall o | o in choice.options :: ValidOption(lib, o)
  }

  predicate ValidChoices(lib: Library, c: Command) {
    && (c.choicesPresent ==> c.choices != [])
    && (c.choices != [] ==> c.kind == CreateRecord || c.kind == UpdateRecord)
    && |c.choices| <= 50
    && (forall choice | choice in c.choices :: ValidChoice(lib, c, choice))
    && (forall i, j | 0 <= i < j < |c.choices| :: c.choices[i].fieldId != c.choices[j].fieldId)
  }

  predicate ValidTarget(lib: Library, c: Command) {
    lib.recordId(c.recordId) && c.expectedRevision >= 1
  }

  predicate ValidShape(lib: Library, c: Command) {
    match c.kind
    case CreateRecord => c.values.Some?
    case UpdateRecord =>
      && ValidTarget(lib, c)
      && (c.setPresent || c.unsetPresent || c.choices != [])
      && (c.setPresent ==> |c.set_| > 0)
      && (c.unsetPresent ==> |c.unset| > 0)
    case DeleteRecord => ValidTarget(lib, c)
    case RestoreRecord => ValidTarget(lib, c)
    case OtherKind => false
  }

  // ----- a batch -----

  function AllChoices(commands: seq<Command>): seq<ChoiceAssignment> {
    if commands == [] then [] else AllChoices(commands[..|commands| - 1]) + commands[|commands| - 1].choices
  }

  function OptionCount(choices: seq<ChoiceAssignment>): nat {
    if choices == [] then 0 else OptionCount(choices[..|choices| - 1]) + |choices[|choices| - 1].options|
  }

  function ChoiceFields(choices: seq<ChoiceAssignment>): set<string> {
    set c | c in choices :: c.fieldId
  }

  /** No record is the target of two commands. */
  predicate TargetsDistinct(commands: seq<Command>) {
    forall i, j | 0 <= i < j < |commands| && commands[i].recordId != "" :: commands[i].recordId != commands[j].recordId
  }

  /** One field carries one expected revision throughout the request. */
  predicate OneRevision(choices: seq<ChoiceAssignment>) {
    forall i, j | 0 <= i < j < |choices| && choices[i].fieldId == choices[j].fieldId ::
      choices[i].expectedRevision == choices[j].expectedRevision
  }

  predicate ValidBatch(lib: Library, commands: seq<Command>) {
    && 1 <= |commands| <= 500
    && (forall c | c in commands :: ValidShape(lib, c))
    && (forall i | 0 <= i < |commands| :: ValidChoices(lib, commands[i]))
    && TargetsDistinct(commands)
    && OneRevision(AllChoices(commands))
    && |ChoiceFields(AllChoices(commands))| <= 50
    && OptionCount(AllChoices(commands)) <= 500
  }

  /** The choices of one command on their own; repeated fields are found with a seen-set. */
  method CheckCommandChoices(lib: Library, c: Command) returns (ok: bool)
    ensures ok <==> ValidChoices(lib, c)
  {
    if (c.choicesPresent && c.choices == []) || |c.choices| > 50 {
      return false;
    }
    if c.choices != [] && c.kind != CreateRecord && c.kind != UpdateRecord {
      return false;
    }
    var seen: set<string> := {};
    var i := 0;
    while i < |c.choices|
      invariant 0 <= i <= |c.choices|
      invariant seen == set k | 0 <= k < i :: c.choices[k].fieldId
      invariant forall k | 0 <= k < i :: ValidChoice(lib, c, c.choices[k])
      invariant forall k, m | 0 <= k < m < i :: c.choices[k].fieldId != c.choices[m].fieldId
    {
      var choice := c.choices[i];
      assert choice in c.choices;
      if choice.fieldId in seen || !ValidChoice(lib, c, choice) {
        return false;
      }
      seen := seen + {choice.fieldId};
      i := i + 1;
    }
    return true;
  }

  lemma ConsistentStep(expected: map<string, int>, done: seq<ChoiceAssignment>, choice: ChoiceAssignment)
    requires Records(expected, done)
    ensures OneRevision(done + [choice]) <==>
            OneRevision(done) && (choice.fieldId in expected ==> expected[choice.fieldId] == choice.expectedRevision)
  {
    if OneRevision(done) {
      RevisionStep(expected, done, choice);
    } else if OneRevision(done + [choice]) {
      OneRevisionPrefix(done, done + [choice]);
    }
  }

  lemma OneChoiceMore(before: seq<ChoiceAssignment>, choices: seq<ChoiceAssignment>, i: nat)
    requires i < |choices|
    ensures before + choices[..i + 1] == before + choices[..i] + [choices[i]]
  {
  }

  /** What is known after the choices `done`, of which `before` came from earlier commands. */
  ghost predicate Tracked(before: seq<ChoiceAssignment>, done: seq<ChoiceAssignment>, expected: map<string, int>, count: nat, consistent: bool) {
    Records(expected, done) && OptionCount(before) + count == OptionCount(done) && (consistent <==> OneRevision(done))
  }

  lemma TrackStep(before: seq<ChoiceAssignment>, done: seq<ChoiceAssignment>, expected: map<string, int>, count: nat,
                  consistent: bool, choice: ChoiceAssignment)
    requires Tracked(before, done, expected, count, consistent)
    ensures Tracked(before, done + [choice], expected[choice.fieldId := choice.expectedRevision], count + |choice.options|,
                    consistent && (choice.fieldId in expected ==> expected[choice.fieldId] == choice.expectedRevision))
  {
    CountStep(done, choice);
    RecordsStep(expected, done, choice);
    ConsistentStep(expected, done, choice);
  }

  /** The running revision map and option count across commands. */
  method TrackChoices(choices: seq<ChoiceAssignment>, expected: map<string, int>, ghost before: seq<ChoiceAssignment>)
    returns (consistent: bool, expected': map<string, int>, count: nat)
    requires Records(expected, before) && OneRevision(before)
    ensures Records(expected', before + choices)
    ensures OptionCount(before) + count == OptionCount(before + choices)
    ensures consistent <==> OneRevision(before + choices)
  {
    consistent, expected', count := true, expected, 0;
    assert before + choices[..0] == before;
    var i := 0;
    while i < |choices|
      invariant 0 <= i <= |choices|
      invariant Tracked(before, before + choices[..i], expected', count, consistent)
    {
      var choice := choices[i];
      ghost var done := before + choices[..i];
      TrackStep(before, done, expected', count, consistent, choice);
      if choice.fieldId in expected' && expected'[choice.fieldId] != choice.expectedRevision { consistent := false; }
      expected' := expected'[choice.fieldId := choice.expectedRevision];
      count := count + |choice.options|;
      assert Tracked(before, done + [choice], expected', count, consistent);
      OneChoiceMore(before, choices, i);
      i := i + 1;
    }
    assert choices[..i] == choices;
  }

  /** The running map holds, for every field met so far, the revision last met with it. */
  ghost predicate Records(expected: map<string, int>, choices: seq<ChoiceAssignment>) {
    && expected.Keys == ChoiceFields(choices)
    && forall f | f in expected :: exists i | 0 <= i < |choices| ::
         choices[i].fieldId == f && choices[i].expectedRevision == expected[f]
  }

  lemma CountStep(done: seq<ChoiceAssignment>, choice: ChoiceAssignment)
    ensures OptionCount(done + [choice]) == OptionCount(done) + |choice.options|
  {
    assert (done + [choice])[..|done|] == done;
  }

  lemma RecordsStep(expected: map<string, int>, done: seq<ChoiceAssignment>, choice: ChoiceAssignment)
    requires Records(expected, done)
    ensures Records(expected[choice.fieldId := choice.expectedRevision], done + [choice])
  {
    var more, after := done + [choice], expected[choice.fieldId := choice.expectedRevision];
    assert ChoiceFields(more) == ChoiceFields(done) + {choice.fieldId};
    assert more[|done|] == choice;
    forall f | f in after.Keys
      ensures exists k | 0 <= k < |more| :: more[k].fieldId == f && more[k].expectedRevision == after[f]
    {
      if f != choice.fieldId {
        var k :| 0 <= k < |done| && done[k].fieldId == f && done[k].expectedRevision == expected[f];
        assert more[k] == done[k];
      }
    }
  }

  lemma RevisionStep(expected: map<string, int>, done: seq<ChoiceAssignment>, choice: ChoiceAssignment)
    requires Records(expected, done) && OneRevision(done)
    ensures OneRevision(done + [choice]) <==>
            (choice.fieldId in expected ==> expected[choice.fieldId] == choice.expectedRevision)
  {
    var more := done + [choice];
    if choice.fieldId in expected {
      var k :| 0 <= k < |done| && done[k].fieldId == choice.fieldId && done[k].expectedRevision == expected[choice.fieldId];
      assert more[k] == done[k] && more[|done|] == choice;
    } else {
      forall k | 0 <= k < |done| ensures done[k].fieldId != choice.fieldId {
        assert done[k] in done;
      }
    }
  }

  lemma OneRevisionPrefix(a: seq<ChoiceAssignment>, b: seq<ChoiceAssignment>)
    requires a <= b && OneRevision(b)
    ensures OneRevision(a)
  {
  }

  /** The whole check: accepted exactly when the batch is valid. */
  method ValidateCommands(lib: Library, commands: seq<Command>) returns (ok: bool)
    ensures ok <==> ValidBatch(lib, commands)
  {
    if |commands| == 0 || |commands| > 500 {
      return false;
    }
    var targetsOk := CheckTargets(lib, commands);
    var choicesOk := ValidateChoices(lib, commands);
    assert commands[..|commands|] == commands;
    return targetsOk && choicesOk;
  }

  /** The targets of the first commands, each with the place where it was named; none of them twice. */
  ghost predicate Tracks(commands: seq<Command>, targets: map<string, nat>, n: nat)
    requires n <= |commands|
  {
    && (forall r | r in targets :: targets[r] < n && commands[targets[r]].recordId == r != "")
    && (forall k | 0 <= k < n && commands[k].recordId != "" :: commands[k].recordId in targets)
    && (forall k, m | 0 <= k < m < n && commands[k].recordId != "" :: commands[k].recordId != commands[m].recordId)
  }

  lemma TrackMore(commands: seq<Command>, targets: map<string, nat>, i: nat)
    requires i < |commands| && Tracks(commands, targets, i) && commands[i].recordId !in targets
    ensures Tracks(commands, if commands[i].recordId != "" then targets[commands[i].recordId := i] else targets, i + 1)
  {
  }

  lemma TrackRepeat(commands: seq<Command>, targets: map<string, nat>, i: nat)
    requires i < |commands| && Tracks(commands, targets, i) && commands[i].recordId in targets
    ensures !TargetsDistinct(commands)
  {
    assert commands[targets[commands[i].recordId]].recordId == commands[i].recordId;
  }

  method CheckTargets(lib: Library, commands: seq<Command>) returns (ok: bool)
    ensures ok <==> (forall c | c in commands :: ValidShape(lib, c)) && TargetsDistinct(commands)
  {
    var targets: map<string, nat> := map[];
    var i := 0;
    while i < |commands|
      invariant 0 <= i <= |commands|
      invariant Tracks(commands, targets, i)
      invariant forall k | 0 <= k < i :: ValidShape(lib, commands[k])
    {
      var recordId := commands[i].recordId;
      assert commands[i] in commands;
      if !ValidShape(lib, commands[i]) {
        return false;
      }
      if recordId in targets {
        TrackRepeat(commands, targets, i);
        return false;
      }
      TrackMore(commands, targets, i);
      if recordId != "" {
        targets := targets[recordId := i];
      }
      i := i + 1;
    }
    return true;
  }

  ghost predicate AcceptedSoFar(lib: Library, commands: seq<Command>, i: nat)
    requires i <= |commands|
  {
    (forall k | 0 <= k < i :: ValidChoices(lib, commands[k])) && OneRevision(AllChoices(commands[..i]))
  }

  method ValidateChoices(lib: Library, commands: seq<Command>) returns (ok: bool)
    ensures ok <==>
      && AcceptedSoFar(lib, commands, |commands|)
      && |ChoiceFields(AllChoices(commands))| <= 50
      && OptionCount(AllChoices(commands)) <= 500
  {
    var expected: map<string, int> := map[];
    var optionCount := 0;
    var i := 0;
    while i < |commands|
      invariant 0 <= i <= |commands|
      invariant Records(expected, AllChoices(commands[..i]))
      invariant optionCount == OptionCount(AllChoices(commands[..i]))
      invariant AcceptedSoFar(lib, commands, i)
    {
      AllChoicesStep(commands, i);
      var good := CheckCommandChoices(lib, commands[i]);
      var consistent, count;
      consistent, expected, count := TrackChoices(commands[i].choices, expected, AllChoices(commands[..i]));
      if !good || !consistent {
        // The source goes on to collect further issues; the batch is refused either way.
        Refused(lib, commands, i);
        return false;
      }
      optionCount := optionCount + count;
      i := i + 1;
    }
    assert commands[..i] == commands;
    assert |expected| == |expected.Keys|;
    return |expected| <= 50 && optionCount <= 500;
  }

  lemma AllChoicesStep(commands: seq<Command>, i: nat)
    requires i < |commands|
    ensures AllChoices(commands[..i + 1]) == AllChoices(commands[..i]) + commands[i].choices
  {
    assert commands[..i + 1][..i] == commands[..i];
  }

  lemma Refused(lib: Library, commands: seq<Command>, i: nat)
    requires i < |commands| && !AcceptedSoFar(lib, commands, i + 1)
    ensures !AcceptedSoFar(lib, commands, |commands|)
  {
    PrefixChoices(commands, i + 1);
    assert commands[..|commands|] == commands;
  }

  /** The choices of a prefix of the commands are a prefix of all choices. */
  lemma {:induction false} PrefixChoices(commands: seq<Command>, n: nat)
    requires n <= |commands|
    ensures AllChoices(commands[..n]) <= AllChoices(commands)
    ensures OneRevision(AllChoices(commands)) ==> OneRevision(AllChoices(commands[..n]))
  {
    if n == |commands| {
      assert commands[..n] == commands;
    } else {
      var front := commands[..|commands| - 1];
      if OneRevision(AllChoices(commands)) {
        OneRevisionPrefix(AllChoices(front), AllChoices(commands));
      }
      PrefixChoices(front, n);
      assert front[..n] == commands[..n];
    }
  }
}
