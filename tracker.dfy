/** HabitTracker.run_tracker: prompt every activity of every pillar in catalog order,
    turn each answer into a "name: value unit" fragment in its pillar's list, and hand
    the lists to write_to_files under the given date. */
module Tracker {
  import opened Text
  import opened Catalog
  import opened Prompting
  import opened Persistence

  /** The if-chain that picks the unit shown after a value. */
  function Unit(domain: Domain, name: string, value: string): string {
    if domain.Commits? then "commits"
    else if name == "Meditation" then (if value == "1" then "session" else "sessions")
    else if name == "Sleeping" then "hr"
    else if name == "Napping" then "min"
    else "min"
  }

  /** The fragment appended for one answered activity: "name: value unit". */
  function Fragment(name: string, value: string, unit: string): string {
    name + ": " + value + " " + unit
  }

  /** The fragment an activity gets for an accepted value. */
  function Render(activity: Activity, value: string): string {
    Fragment(activity.name, value, Unit(activity.domain, activity.name, value))
  }

  /** Which unit an answer gets, in both directions: commits exactly for a commit
      count; session exactly for Meditation answered "1" and sessions for its other
      answers; hr exactly for Sleeping; min for every other bounded activity, so the
      Napping branch of the chain gives what the final else gives anyway. */
  lemma UnitCases(domain: Domain, name: string, value: string)
    ensures Unit(domain, name, value) == "commits" <==> domain.Commits?
    ensures Unit(domain, name, value) == "session" <==> domain.Bounded? && name == "Meditation" && value == "1"
    ensures Unit(domain, name, value) == "sessions" <==> domain.Bounded? && name == "Meditation" && value != "1"
    ensures Unit(domain, name, value) == "hr" <==> domain.Bounded? && name == "Sleeping"
    ensures Unit(domain, name, value) == "min" <==> domain.Bounded? && name != "Meditation" && name != "Sleeping"
  {
  }

  /** For an accepted Meditation answer the unit agrees in number with the count: it
      is singular exactly when the answer denotes one session. */
  lemma MeditationSingular(options: seq<nat>, value: string)
    requires Accepts(Bounded(options), value)
    ensures IsCanonicalNumeral(value)
    ensures Unit(Bounded(options), "Meditation", value) == "session" <==> NumeralValue(value) == 1
  {
    BoundedAccepts(options, value);
    if NumeralValue(value) == 1 {
      NatOfNumeral(value);
      assert NatToString(1) == "1";
    }
  }

  /** Every unit is a single word: no colon, no space. */
  lemma UnitPlain(domain: Domain, name: string, value: string)
    ensures Unit(domain, name, value) != []
    ensures ':' !in Unit(domain, name, value) && ' ' !in Unit(domain, name, value)
    ensures '|' !in Unit(domain, name, value) && '\n' !in Unit(domain, name, value)
    ensures IsStripped(Unit(domain, name, value))
  {
  }

  /** "name: value unit" splits back, at its colon, into the name and the rest, and
      the rest, at its spaces, into the value and the unit, when neither the value
      nor the unit holds a colon or a space and the name holds no colon. */
  lemma FragmentFields(name: string, value: string, unit: string)
    requires ':' !in name && ':' !in value && ' ' !in value && ':' !in unit && ' ' !in unit
    ensures Split(Fragment(name, value, unit), ':') == [name, " " + value + " " + unit]
    ensures Split(" " + value + " " + unit, ' ') == ["", value, unit]
  {
    var rest := " " + value + " " + unit;
    assert ':' !in rest;
    assert Fragment(name, value, unit) == name + [':'] + rest;
    SplitAround(name, ':', rest);
    SplitWithout(name, ':');
    SplitWithout(rest, ':');
    assert rest == [] + [' '] + (value + [' '] + unit);
    SplitAround([], ' ', value + [' '] + unit);
    SplitAround(value, ' ', unit);
    SplitWithout(value, ' ');
    SplitWithout(unit, ' ');
  }

  /** A fragment of an accepted answer splits back into the activity name, the
      answer as typed (stripped) and its unit. */
  lemma RenderFields(activity: Activity, value: string)
    requires ':' !in activity.name && Accepts(activity.domain, value)
    ensures Split(Render(activity, value), ':')
         == [activity.name, " " + value + " " + Unit(activity.domain, activity.name, value)]
    ensures Split(" " + value + " " + Unit(activity.domain, activity.name, value), ' ')
         == ["", value, Unit(activity.domain, activity.name, value)]
  {
    AcceptedIsDigits(activity.domain, value);
    assert ':' !in value && ' ' !in value by {
      assert !IsDigit(':') && !IsDigit(' ');
    }
    UnitPlain(activity.domain, activity.name, value);
    FragmentFields(activity.name, value, Unit(activity.domain, activity.name, value));
  }

  /** One pass of the inner loop's body: the activity's answer, the first acceptable
      console line, turned into its fragment, with the number of lines read. */
  function Answer(input: seq<string>, activity: Activity): (r: Progress<string>)
    ensures r.Done? ==> 0 < r.consumed <= |input|
  {
    match Prompt(input, activity.domain)
    case EndOfInput => EndOfInput
    case Done(v, n) => Done(Render(activity, v), n)
  }

  /** The body of run_tracker's inner loop: prompt for the activity, pick the unit
      for the activity and the value, and format the fragment. */
  method AnswerActivity(input: seq<string>, activity: Activity) returns (r: Progress<string>)
    ensures r == Answer(input, activity)
  {
    var answer := PromptActivity(input, activity.domain);
    if answer.EndOfInput? {
      return EndOfInput;
    }
    var value := answer.value;
    var unit := Unit(activity.domain, activity.name, value);
    return Done(Fragment(activity.name, value, unit), answer.consumed);
  }

  /** The inner loop of run_tracker, from activity j on: the position in the console
      input has reached pos and the fragments of the earlier activities are built;
      each activity is prompted in turn from where the previous prompt stopped. The
      result is every fragment of the pillar with the position after the last answer. */
  function PromptFrom(input: seq<string>, activities: seq<Activity>, j: nat, pos: nat, fragments: seq<string>)
    : (r: Progress<seq<string>>)
    requires j <= |activities| && pos <= |input|
    ensures r.Done? ==> pos <= r.consumed <= |input|
    decreases |activities| - j
  {
    if j == |activities| then Done(fragments, pos)
    else
      match Answer(input[pos..], activities[j])
      case EndOfInput => EndOfInput
      case Done(f, n) => PromptFrom(input, activities, j + 1, pos + n, fragments + [f])
  }

  /** All the fragments of one pillar, read from the start of the input. */
  function PromptAll(input: seq<string>, activities: seq<Activity>): Progress<seq<string>> {
    PromptFrom(input, activities, 0, 0, [])
  }

  /** The outer loop of run_tracker, from pillar i on, with the fragment lists of the
      earlier pillars done: each pillar's list, pillar by pillar. */
  function TrackFrom(input: seq<string>, pillars: seq<Pillar>, i: nat, pos: nat, done: seq<seq<string>>)
    : (r: Progress<seq<seq<string>>>)
    requires i <= |pillars| && pos <= |input|
    ensures r.Done? ==> |r.value| == |done| + |pillars| - i && pos <= r.consumed <= |input|
    decreases |pillars| - i
  {
    if i == |pillars| then Done(done, pos)
    else
      match PromptFrom(input, pillars[i].activities, 0, pos, [])
      case EndOfInput => EndOfInput
      case Done(fragments, next) => TrackFrom(input, pillars, i + 1, next, done + [fragments])
  }

  /** Every pillar's fragment list, read from the start of the input, with the number
      of lines read. */
  function Track(input: seq<string>, pillars: seq<Pillar>): Progress<seq<seq<string>>> {
    TrackFrom(input, pillars, 0, 0, [])
  }

  /** pillar_data as run_tracker leaves it: the keys of pillar_files, in order, each
      with its pillar's fragments. */
  function Zip(keys: seq<string>, values: seq<seq<string>>): (d: PillarData)
    requires |keys| == |values|
    ensures |d| == |keys| && forall i :: 0 <= i < |keys| ==> d[i] == (keys[i], values[i])
  {
    seq(|keys|, i requires 0 <= i < |keys| => (keys[i], values[i]))
  }

  /** The activities catalog and pillar_files name the same pillars in the same order,
      without repetition (as CatalogConsistent shows for the tracker's own data). */
  predicate Consistent(pillars: seq<Pillar>, paths: seq<(string, string)>) {
    && |pillars| == |paths|
    && DistinctKeys(paths)
    && forall i :: 0 <= i < |pillars| ==> pillars[i].name == paths[i].0
  }

  /** A complete run of run_tracker over the catalog pillars and the files paths, on
      the given date, console lines and files: the files afterwards and the number of
      lines read, or the end of the console input before every activity was answered,
      in which case nothing is written. */
  function Run(pillars: seq<Pillar>, paths: seq<(string, string)>, date: string, input: seq<string>,
               fs: FileSystem): Progress<FileSystem>
    requires Consistent(pillars, paths)
  {
    match Track(input, pillars)
    case EndOfInput => EndOfInput
    case Done(data, n) => Done(WriteAll(paths, fs, date, Zip(Keys(paths), data)).files, n)
  }

  /** Where a key sits in pillar_data, for pillar_data[key]; None is Python's KeyError. */
  function KeyIndex(data: PillarData, key: string): Option<nat>
    decreases |data|
  {
    if data == [] then None
    else if data[0].0 == key then Some(0)
    else
      match KeyIndex(data[1..], key)
      case None => None
      case Some(k) => Some(k + 1)
  }

  /** KeyIndex finds the first entry with the key, and fails only when there is none. */
  lemma {:induction false} KeyIndexSpec(data: PillarData, key: string)
    ensures KeyIndex(data, key).Some? ==>
              && KeyIndex(data, key).value < |data| && data[KeyIndex(data, key).value].0 == key
              && forall i :: 0 <= i < KeyIndex(data, key).value ==> data[i].0 != key
    ensures KeyIndex(data, key).None? ==> forall i :: 0 <= i < |data| ==> data[i].0 != key
    decreases |data|
  {
    if data != [] && data[0].0 != key {
      KeyIndexSpec(data[1..], key);
      assert forall i :: 1 <= i < |data| ==> data[i] == data[1..][i - 1];
    }
  }

  /** pillar_data once the pillars whose fragment lists are done have been read:
      every key of pillar_files in order, those first ones with their fragments and
      the remaining ones still empty. */
  function Partial(paths: seq<(string, string)>, done: seq<seq<string>>): (d: PillarData)
    requires |done| <= |paths|
    ensures |d| == |paths|
  {
    seq(|paths|, k requires 0 <= k < |paths| => (paths[k].0, if k < |done| then done[k] else []))
  }

  /** Appending a pillar's fragments under its key fills in the next pillar. */
  lemma PartialStep(paths: seq<(string, string)>, done: seq<seq<string>>, key: string, fragments: seq<string>)
    requires |done| < |paths| && DistinctKeys(paths) && key == paths[|done|].0
    ensures KeyIndex(Partial(paths, done), key) == Some(|done|)
    ensures Partial(paths, done)[|done| := (key, Partial(paths, done)[|done|].1 + fragments)]
         == Partial(paths, done + [fragments])
  {
    var d := Partial(paths, done);
    KeyIndexSpec(d, key);
    assert d[|done|].1 + fragments == fragments;
  }

  /** Once every pillar is filled in, pillar_data pairs each key with its fragments. */
  lemma PartialAll(paths: seq<(string, string)>, done: seq<seq<string>>)
    requires |done| == |paths|
    ensures Partial(paths, done) == Zip(Keys(paths), done)
  {
  }

  /** The inner loop of run_tracker for one pillar, from line pos of the console
      input: every activity prompted in turn, each answer turned into its fragment. */
  method PromptActivities(input: seq<string>, start: nat, activities: seq<Activity>)
    returns (r: Progress<seq<string>>)
    requires start <= |input|
    ensures r == PromptFrom(input, activities, 0, start, [])
  {
    var pos := start;
    var fragments: seq<string> := [];
    for j := 0 to |activities|
      invariant start <= pos <= |input|
      invariant PromptFrom(input, activities, 0, start, []) == PromptFrom(input, activities, j, pos, fragments)
    {
      var answer := AnswerActivity(input[pos..], activities[j]);
      if answer.EndOfInput? {
        return EndOfInput;
      }
      fragments := fragments + [answer.value];
      pos := pos + answer.consumed;
    }
    return Done(fragments, pos);
  }

  /** pillar_data as the loops of run_tracker leave it, with the number of console
      lines they read. */
  function Collected(pillars: seq<Pillar>, paths: seq<(string, string)>, input: seq<string>): Progress<PillarData>
    requires Consistent(pillars, paths)
  {
    match Track(input, pillars)
    case EndOfInput => EndOfInput
    case Done(data, n) => Done(Zip(Keys(paths), data), n)
  }

  /** pillar_data after the loops has the keys of pillar_files, in order, and each
      key's list holds one fragment of an acceptable answer per activity of its
      pillar, in catalog order. */
  lemma CollectedSpec(pillars: seq<Pillar>, paths: seq<(string, string)>, input: seq<string>)
    requires Consistent(pillars, paths)
    ensures Collected(pillars, paths, input).Done? ==>
              && Keys(Collected(pillars, paths, input).value) == Keys(paths)
              && |Collected(pillars, paths, input).value| == |pillars|
              && forall i :: 0 <= i < |pillars| ==>
                   && Collected(pillars, paths, input).value[i].0 == pillars[i].name
                   && PillarAnswered(pillars[i], Collected(pillars, paths, input).value[i].1)
  {
    TrackSpec(input, pillars);
    match Track(input, pillars)
    case EndOfInput =>
    case Done(data, n) =>
      var d := Zip(Keys(paths), data);
      assert Keys(d) == Keys(paths);
  }

  /** The two loops of run_tracker: every pillar's activities prompted in turn, the
      pillar's fragments appended to its list in pillar_data. */
  method CollectAnswers(pillars: seq<Pillar>, paths: seq<(string, string)>, input: seq<string>)
    returns (r: Progress<PillarData>)
    requires Consistent(pillars, paths)
    ensures r == Collected(pillars, paths, input)
  {
    var pillarData: PillarData := seq(|paths|, k requires 0 <= k < |paths| => (paths[k].0, []));
    var pos: nat := 0;
    ghost var done: seq<seq<string>> := [];
    for i := 0 to |pillars|
      invariant pos <= |input| && |done| == i
      invariant Track(input, pillars) == TrackFrom(input, pillars, i, pos, done)
      invariant pillarData == Partial(paths, done)
    {
      var pillar := pillars[i];
      var answers := PromptActivities(input, pos, pillar.activities);
      if answers.EndOfInput? {
        return EndOfInput;
      }
      var fragments := answers.value;
      PartialStep(paths, done, pillar.name, fragments);
      var k := KeyIndex(pillarData, pillar.name);
      pillarData := pillarData[k.value := (pillar.name, pillarData[k.value].1 + fragments)];
      done := done + [fragments];
      pos := answers.consumed;
    }
    PartialAll(paths, done);
    return Done(pillarData, pos);
  }

  /** run_tracker, with self.activities as pillars and self.pillar_files as paths. */
  method RunTracker(pillars: seq<Pillar>, paths: seq<(string, string)>, date: string, input: seq<string>,
                    fs: FileSystem) returns (r: Progress<FileSystem>)
    requires Consistent(pillars, paths)
    ensures r == Run(pillars, paths, date, input, fs)
  {
    var collected := CollectAnswers(pillars, paths, input);
    if collected.EndOfInput? {
      return EndOfInput;
    }
    var w := WriteToFiles(paths, fs, date, collected.value);
    r := Done(w.files, collected.consumed);
  }

  /** A list of answers seen from line pos of the input, after the fragments
      already built. */
  function Shift<T>(p: Progress<seq<T>>, earlier: seq<T>, pos: nat): Progress<seq<T>> {
    match p
    case EndOfInput => EndOfInput
    case Done(xs, n) => Done(earlier + xs, pos + n)
  }

  /** Reference semantics of prompting a list of activities: the first activity is
      answered from the start of the input, the others from the line after its
      answer. Every activity gets exactly one fragment and takes at least one line. */
  function Answers(input: seq<string>, activities: seq<Activity>): (r: Progress<seq<string>>)
    ensures r.Done? ==> |r.value| == |activities| && |activities| <= r.consumed <= |input|
    decreases |activities|
  {
    if activities == [] then Done([], 0)
    else
      match Answer(input, activities[0])
      case EndOfInput => EndOfInput
      case Done(f, n) => Shift(Answers(input[n..], activities[1..]), [f], n)
  }

  /** Dropping a lines and then b more lines is dropping a + b lines. */
  lemma {:induction false} DropDrop(input: seq<string>, a: nat, b: nat)
    requires a + b <= |input|
    ensures input[a..][b..] == input[a + b..]
  {
  }

  /** Shifting twice is shifting once by the combined position and fragments. */
  lemma {:induction false} ShiftShift<T>(p: Progress<seq<T>>, inner: seq<T>, i: nat, outer: seq<T>, j: nat)
    ensures Shift(Shift(p, inner, i), outer, j) == Shift(p, outer + inner, j + i)
  {
    match p
    case EndOfInput =>
    case Done(fs, n) => assert outer + (inner + fs) == outer + inner + fs;
  }

  /** Answers on a list with a given first activity, when that activity is answered
      with fragment f after n lines, or not at all. */
  lemma {:induction false} AnswersCons(input: seq<string>, activity: Activity, rest: seq<Activity>, f: string, n: nat)
    ensures Answer(input, activity).EndOfInput? ==> Answers(input, [activity] + rest).EndOfInput?
    ensures Answer(input, activity) == Done(f, n) ==>
              Answers(input, [activity] + rest) == Shift(Answers(input[n..], rest), [f], n)
  {
    var list := [activity] + rest;
    assert list[0] == activity && list[1..] == rest;
  }

  /** Answers on the activities from index j on, when activity j is answered with
      fragment f after n lines, or not at all. */
  lemma {:induction false} AnswersFrom(input: seq<string>, activities: seq<Activity>, j: nat, f: string, n: nat)
    requires j < |activities|
    ensures Answer(input, activities[j]).EndOfInput? ==> Answers(input, activities[j..]).EndOfInput?
    ensures Answer(input, activities[j]) == Done(f, n) ==>
              Answers(input, activities[j..]) == Shift(Answers(input[n..], activities[j + 1..]), [f], n)
  {
    var ahead := activities[j..];
    assert ahead[0] == activities[j] && ahead[1..] == activities[j + 1..];
  }

  /** One pass of the inner loop, when activity j is answered with fragment f after
      n lines, or not at all. */
  lemma {:induction false} PromptFromStep(input: seq<string>, activities: seq<Activity>, j: nat, pos: nat,
                                          fragments: seq<string>, f: string, n: nat)
    requires j < |activities| && pos <= |input|
    ensures Answer(input[pos..], activities[j]).EndOfInput? ==>
              PromptFrom(input, activities, j, pos, fragments).EndOfInput?
    ensures Answer(input[pos..], activities[j]) == Done(f, n) ==>
              PromptFrom(input, activities, j, pos, fragments)
                == PromptFrom(input, activities, j + 1, pos + n, fragments + [f])
  {
  }

  /** The accumulating inner loop computes the reference semantics on the activities
      and the console lines still ahead of it. */
  lemma {:induction false} PromptFromAnswers(input: seq<string>, activities: seq<Activity>, j: nat, pos: nat,
                                             fragments: seq<string>)
    requires j <= |activities| && pos <= |input|
    ensures PromptFrom(input, activities, j, pos, fragments)
         == Shift(Answers(input[pos..], activities[j..]), fragments, pos)
    decreases |activities| - j
  {
    if j < |activities| {
      match Answer(input[pos..], activities[j])
      case EndOfInput =>
        AnswersFrom(input[pos..], activities, j, [], 0);
        PromptFromStep(input, activities, j, pos, fragments, [], 0);
      case Done(f, n) =>
        AnswersFrom(input[pos..], activities, j, f, n);
        PromptFromStep(input, activities, j, pos, fragments, f, n);
        PromptFromAnswers(input, activities, j + 1, pos + n, fragments + [f]);
        DropDrop(input, pos, n);
        ShiftShift(Answers(input[pos + n..], activities[j + 1..]), [f], n, fragments, pos);
    } else {
      PromptFromEnd(input, activities, pos, fragments);
    }
  }

  /** The inner loop after the last activity. */
  lemma {:induction false} PromptFromEnd(input: seq<string>, activities: seq<Activity>, pos: nat, fragments: seq<string>)
    requires pos <= |input|
    ensures PromptFrom(input, activities, |activities|, pos, fragments)
         == Shift(Answers(input[pos..], activities[|activities|..]), fragments, pos)
  {
    assert activities[|activities|..] == [];
    assert fragments + [] == fragments;
  }

  /** Reading the inner loop from the start of the input is the reference semantics. */
  lemma PromptAllAnswers(input: seq<string>, activities: seq<Activity>)
    ensures PromptAll(input, activities) == Answers(input, activities)
  {
    PromptFromAnswers(input, activities, 0, 0, []);
    assert input[0..] == input && activities[0..] == activities;
    match Answers(input, activities)
    case EndOfInput =>
    case Done(fs, n) => assert [] + fs == fs;
  }

  /** Answering two lists of activities one after the other is answering the first
      and then the second from the line after the first list's last answer. */
  lemma {:induction false} AnswersAppend(input: seq<string>, first: seq<Activity>, second: seq<Activity>)
    ensures Answers(input, first).EndOfInput? ==> Answers(input, first + second).EndOfInput?
    ensures Answers(input, first).Done? ==>
              Answers(input, first + second)
                == Shift(Answers(input[Answers(input, first).consumed..], second),
                         Answers(input, first).value, Answers(input, first).consumed)
    decreases |first|
  {
    if first == [] {
      AnswersAppendEmpty(input, first, second);
    } else {
      var a := first[0];
      var tail := first[1..];
      assert first == [a] + tail && first + second == [a] + (tail + second);
      match Answer(input, a)
      case EndOfInput =>
        AnswersCons(input, a, tail + second, [], 0);
        AnswersCons(input, a, tail, [], 0);
      case Done(f, n) =>
        AnswersCons(input, a, tail + second, f, n);
        AnswersCons(input, a, tail, f, n);
        var rest := input[n..];
        AnswersAppend(rest, tail, second);
        match Answers(rest, tail)
        case EndOfInput =>
        case Done(fs, k) =>
          DropDrop(input, n, k);
          var later := Answers(input[n + k..], second);
          ShiftShift(later, fs, k, [f], n);
          var whole := Answers(input, first);
          assert whole == Done([f] + fs, n + k);
          assert input[whole.consumed..] == input[n + k..];
    }
  }

  /** The append law when the first list is empty. */
  lemma {:induction false} AnswersAppendEmpty(input: seq<string>, first: seq<Activity>, second: seq<Activity>)
    requires first == []
    ensures Answers(input, first) == Done([], 0)
    ensures Answers(input, first + second) == Shift(Answers(input[0..], second), [], 0)
  {
    assert first + second == second && input[0..] == input;
    match Answers(input, second)
    case EndOfInput =>
    case Done(gs, m) => assert [] + gs == gs;
  }

  /** Reference semantics of the outer loop: each pillar's activities answered in
      turn, each pillar starting on the line after the previous pillar's last answer.
      Every pillar gets as many fragments as it has activities. */
  function Sections(input: seq<string>, pillars: seq<Pillar>): (r: Progress<seq<seq<string>>>)
    ensures r.Done? ==> |r.value| == |pillars| && r.consumed <= |input|
    decreases |pillars|
  {
    if pillars == [] then Done([], 0)
    else
      match Answers(input, pillars[0].activities)
      case EndOfInput => EndOfInput
      case Done(fs, n) => Shift(Sections(input[n..], pillars[1..]), [fs], n)
  }

  /** Every pillar gets as many fragments as it has activities. */
  lemma {:induction false} SectionsShape(input: seq<string>, pillars: seq<Pillar>)
    ensures Sections(input, pillars).Done? ==>
              forall k :: 0 <= k < |pillars| ==> |Sections(input, pillars).value[k]| == |pillars[k].activities|
    decreases |pillars|
  {
    if pillars != [] {
      match Answers(input, pillars[0].activities)
      case EndOfInput =>
      case Done(fs, n) =>
        SectionsShape(input[n..], pillars[1..]);
        var later := Sections(input[n..], pillars[1..]);
        if later.Done? {
          var groups := [fs] + later.value;
          assert Sections(input, pillars).value == groups;
          assert forall k :: 1 <= k < |pillars| ==> groups[k] == later.value[k - 1] && pillars[k] == pillars[1..][k - 1];
        }
    }
  }

  /** The fragments of all pillars, one pillar after the other. */
  function Concat(groups: seq<seq<string>>): seq<string>
    decreases |groups|
  {
    if groups == [] then [] else groups[0] + Concat(groups[1..])
  }

  /** One pass of the outer loop. */
  lemma {:induction false} TrackFromStep(input: seq<string>, pillars: seq<Pillar>, i: nat, pos: nat,
                                         done: seq<seq<string>>)
    requires i < |pillars| && pos <= |input|
    ensures PromptFrom(input, pillars[i].activities, 0, pos, []).EndOfInput? ==>
              TrackFrom(input, pillars, i, pos, done).EndOfInput?
    ensures PromptFrom(input, pillars[i].activities, 0, pos, []).Done? ==>
              TrackFrom(input, pillars, i, pos, done)
                == TrackFrom(input, pillars, i + 1, PromptFrom(input, pillars[i].activities, 0, pos, []).consumed,
                             done + [PromptFrom(input, pillars[i].activities, 0, pos, []).value])
  {
  }

  /** The inner loop for a whole pillar, from line pos, with no fragments yet. */
  lemma {:induction false} PromptFromStart(input: seq<string>, activities: seq<Activity>, pos: nat)
    requires pos <= |input|
    ensures Answers(input[pos..], activities).EndOfInput? ==> PromptFrom(input, activities, 0, pos, []).EndOfInput?
    ensures Answers(input[pos..], activities).Done? ==>
              PromptFrom(input, activities, 0, pos, [])
                == Done(Answers(input[pos..], activities).value, pos + Answers(input[pos..], activities).consumed)
  {
    PromptFromAnswers(input, activities, 0, pos, []);
    assert activities[0..] == activities;
    match Answers(input[pos..], activities)
    case EndOfInput =>
    case Done(fs, n) => assert [] + fs == fs;
  }

  /** Sections on the pillars from index i on. */
  lemma {:induction false} SectionsFrom(input: seq<string>, pillars: seq<Pillar>, i: nat)
    requires i < |pillars|
    ensures Answers(input, pillars[i].activities).EndOfInput? ==> Sections(input, pillars[i..]).EndOfInput?
    ensures Answers(input, pillars[i].activities).Done? ==>
              Sections(input, pillars[i..])
                == Shift(Sections(input[Answers(input, pillars[i].activities).consumed..], pillars[i + 1..]),
                         [Answers(input, pillars[i].activities).value], Answers(input, pillars[i].activities).consumed)
  {
    var ahead := pillars[i..];
    assert ahead[0] == pillars[i] && ahead[1..] == pillars[i + 1..];
  }

  /** The outer loop after the last pillar. */
  lemma {:induction false} TrackFromEnd(input: seq<string>, pillars: seq<Pillar>, pos: nat, done: seq<seq<string>>)
    requires pos <= |input|
    ensures TrackFrom(input, pillars, |pillars|, pos, done) == Shift(Sections(input[pos..], pillars[|pillars|..]), done, pos)
  {
    assert pillars[|pillars|..] == [];
    assert done + [] == done;
  }

  /** The accumulating outer loop computes the reference semantics on the pillars and
      the console lines still ahead of it. */
  lemma {:induction false} TrackFromSections(input: seq<string>, pillars: seq<Pillar>, i: nat, pos: nat,
                                             done: seq<seq<string>>)
    requires i <= |pillars| && pos <= |input|
    ensures TrackFrom(input, pillars, i, pos, done) == Shift(Sections(input[pos..], pillars[i..]), done, pos)
    decreases |pillars| - i
  {
    if i < |pillars| {
      var acts := pillars[i].activities;
      PromptFromStart(input, acts, pos);
      SectionsFrom(input[pos..], pillars, i);
      TrackFromStep(input, pillars, i, pos, done);
      match Answers(input[pos..], acts)
      case EndOfInput =>
      case Done(fs, n) =>
        TrackFromSections(input, pillars, i + 1, pos + n, done + [fs]);
        DropDrop(input, pos, n);
        var later := Sections(input[pos + n..], pillars[i + 1..]);
        ShiftShift(later, [fs], n, done, pos);
    } else {
      TrackFromEnd(input, pillars, pos, done);
    }
  }

  /** Answering pillar by pillar is answering the flattened activity list: the same
      lines are read, and the pillars' fragments, one pillar after the other, are the
      fragments of the flattened list. */
  lemma {:induction false} SectionsFlat(input: seq<string>, pillars: seq<Pillar>)
    ensures Sections(input, pillars).EndOfInput? <==> Answers(input, Flatten(pillars)).EndOfInput?
    ensures Sections(input, pillars).Done? ==>
              && Concat(Sections(input, pillars).value) == Answers(input, Flatten(pillars)).value
              && Sections(input, pillars).consumed == Answers(input, Flatten(pillars)).consumed
    decreases |pillars|
  {
    if pillars != [] {
      var p := pillars[0];
      var rest := pillars[1..];
      AnswersAppend(input, p.activities, Flatten(rest));
      match Answers(input, p.activities)
      case EndOfInput =>
      case Done(fs, n) =>
        var tail := input[n..];
        SectionsFlat(tail, rest);
        match Sections(tail, rest)
        case EndOfInput =>
        case Done(groups, m) =>
          assert ([fs] + groups)[1..] == groups;
          assert Concat([fs] + groups) == fs + Concat(groups);
    }
  }

  /** The nested loops read the console exactly as one loop over all activities of
      all pillars in catalog order would: each pillar's list has one fragment per
      activity of the pillar, and the lists, one after the other, are the fragments
      of the flattened catalog. */
  lemma TrackFlat(input: seq<string>, pillars: seq<Pillar>)
    ensures Track(input, pillars).EndOfInput? <==> Answers(input, Flatten(pillars)).EndOfInput?
    ensures Track(input, pillars).Done? ==>
              && |Track(input, pillars).value| == |pillars|
              && (forall k :: 0 <= k < |pillars| ==> |Track(input, pillars).value[k]| == |pillars[k].activities|)
              && Concat(Track(input, pillars).value) == Answers(input, Flatten(pillars)).value
              && Track(input, pillars).consumed == Answers(input, Flatten(pillars)).consumed
  {
    TrackFromSections(input, pillars, 0, 0, []);
    assert input[0..] == input && pillars[0..] == pillars;
    SectionsFlat(input, pillars);
    SectionsShape(input, pillars);
    match Sections(input, pillars)
    case EndOfInput =>
    case Done(groups, n) => assert [] + groups == groups;
  }

  /** The fragments of the activities for the given lines, line k answering activity k. */
  function Rendered(activities: seq<Activity>, lines: seq<string>): (r: seq<string>)
    requires |activities| <= |lines|
    ensures |r| == |activities|
    ensures forall k :: 0 <= k < |activities| ==> r[k] == Render(activities[k], Strip(lines[k]))
  {
    seq(|activities|, k requires 0 <= k < |activities| => Render(activities[k], Strip(lines[k])))
  }

  /** An acceptable first line answers the activity on its own. */
  lemma {:induction false} AnswerAccepted(input: seq<string>, activity: Activity)
    requires |input| > 0 && Accepts(activity.domain, Strip(input[0]))
    ensures Answer(input, activity) == Done(Render(activity, Strip(input[0])), 1)
  {
  }

  /** The lines after the first and the activities after the first, index by index. */
  lemma {:induction false} Tails(input: seq<string>, activities: seq<Activity>)
    requires 0 < |activities| <= |input|
    ensures forall k :: 0 <= k < |activities| - 1 ==>
              activities[1..][k] == activities[k + 1] && input[1..][k] == input[k + 1]
  {
  }

  /** When every line is acceptable for its activity, each activity takes exactly one
      line, in order, and its fragment shows that line stripped. */
  lemma {:induction false} AnswersAccepted(input: seq<string>, activities: seq<Activity>)
    requires |activities| <= |input|
    requires forall k :: 0 <= k < |activities| ==> Accepts(activities[k].domain, Strip(input[k]))
    ensures Answers(input, activities) == Done(Rendered(activities, input), |activities|)
    decreases |activities|
  {
    if activities != [] {
      var first := Render(activities[0], Strip(input[0]));
      AnswerAccepted(input, activities[0]);
      Tails(input, activities);
      AnswersAccepted(input[1..], activities[1..]);
      var later := Rendered(activities[1..], input[1..]);
      assert Answers(input, activities) == Done([first] + later, |activities|);
      assert [first] + later == Rendered(activities, input);
    }
  }

  /** The fragment is what run_tracker builds for the activity and some answer the
      activity accepts. */
  ghost predicate Answered(activity: Activity, fragment: string) {
    exists value :: Accepts(activity.domain, value) && fragment == Render(activity, value)
  }

  /** An answered activity's fragment shows an acceptable answer. */
  lemma {:induction false} AnswerSpec(input: seq<string>, activity: Activity)
    ensures Answer(input, activity).Done? ==> Answered(activity, Answer(input, activity).value)
  {
    PromptSpec(input, activity.domain);
    if Answer(input, activity).Done? {
      var v := Prompt(input, activity.domain).value;
      assert Accepts(activity.domain, v) && Answer(input, activity).value == Render(activity, v);
    }
  }

  /** Every fragment of an answered list belongs to its activity and shows an
      acceptable answer. */
  lemma {:induction false} AnswersSpec(input: seq<string>, activities: seq<Activity>)
    ensures Answers(input, activities).Done? ==>
              forall k :: 0 <= k < |activities| ==> Answered(activities[k], Answers(input, activities).value[k])
    decreases |activities|
  {
    if activities != [] {
      AnswerSpec(input, activities[0]);
      match Answer(input, activities[0])
      case EndOfInput =>
      case Done(f, n) =>
        AnswersSpec(input[n..], activities[1..]);
        match Answers(input[n..], activities[1..])
        case EndOfInput =>
        case Done(fs, m) =>
          ConsIndex(f, fs, activities);
    }
  }

  /** The elements of [f] + fs after the first are those of fs. */
  lemma {:induction false} ConsIndex(f: string, fs: seq<string>, activities: seq<Activity>)
    requires |fs| + 1 == |activities|
    ensures forall k :: 1 <= k < |activities| ==> ([f] + fs)[k] == fs[k - 1] && activities[k] == activities[1..][k - 1]
  {
  }

  /** The tracker's own catalog and pillar files agree: same pillars, same order, no
      pillar twice and no file shared. */
  lemma CatalogConsistent()
    ensures Consistent(Pillars, PillarFiles) && DistinctPaths(PillarFiles)
  {
    CatalogShape();
  }

  /** The files of the pillars of paths. */
  function Files(paths: seq<(string, string)>): set<string> {
    set i | 0 <= i < |paths| :: paths[i].1
  }

  /** In pillar_data as the loops leave it, every pillar's key finds the pillar's
      file. */
  lemma ZipLookup(paths: seq<(string, string)>, data: seq<seq<string>>)
    requires DistinctKeys(paths) && |data| == |paths|
    ensures forall i :: 0 <= i < |paths| ==> Lookup(paths, Zip(Keys(paths), data)[i].0) == Some(paths[i].1)
  {
    var zipped := Zip(Keys(paths), data);
    forall i | 0 <= i < |paths| ensures Lookup(paths, zipped[i].0) == Some(paths[i].1) {
      assert zipped[i].0 == paths[i].0;
      LookupAt(paths, i);
    }
  }

  /** pillar_data as the loops leave it is a dictionary whose every pillar has a file,
      and those files are the files of paths. */
  lemma ZipKnown(paths: seq<(string, string)>, data: seq<seq<string>>)
    requires DistinctKeys(paths) && |data| == |paths|
    ensures DistinctKeys(Zip(Keys(paths), data)) && AllKnown(paths, Zip(Keys(paths), data))
    ensures forall i :: 0 <= i < |paths| ==> Lookup(paths, Zip(Keys(paths), data)[i].0) == Some(paths[i].1)
    ensures Targets(paths, Zip(Keys(paths), data)) == Files(paths)
  {
    ZipLookup(paths, data);
    ZipDistinct(paths, data);
    ZipTargets(paths, Zip(Keys(paths), data));
  }

  /** pillar_data has the keys of pillar_files, so no key twice. */
  lemma ZipDistinct(paths: seq<(string, string)>, data: seq<seq<string>>)
    requires DistinctKeys(paths) && |data| == |paths|
    ensures DistinctKeys(Zip(Keys(paths), data))
  {
    var zipped := Zip(Keys(paths), data);
    assert forall i :: 0 <= i < |paths| ==> zipped[i].0 == paths[i].0;
  }

  /** The files that writing a dictionary of all pillars touches are the pillars' files. */
  lemma ZipTargets(paths: seq<(string, string)>, data: PillarData)
    requires |data| == |paths|
    requires forall i :: 0 <= i < |paths| ==> Lookup(paths, data[i].0) == Some(paths[i].1)
    ensures AllKnown(paths, data) && Targets(paths, data) == Files(paths)
  {
    assert AllKnown(paths, data);
    forall q | q in Files(paths) ensures q in Targets(paths, data) {
      var i :| 0 <= i < |paths| && paths[i].1 == q;
      assert Lookup(paths, data[i].0).value == q;
    }
  }

  /** A run that gets every answer appends to each pillar's file exactly the entry of
      the pillar's fragments under the date, and leaves every other file as it was;
      a run that does not get every answer writes nothing. */
  lemma RunEffect(pillars: seq<Pillar>, paths: seq<(string, string)>, date: string, input: seq<string>,
                  fs: FileSystem)
    requires Consistent(pillars, paths) && DistinctPaths(paths)
    ensures Run(pillars, paths, date, input, fs).EndOfInput? <==> Track(input, pillars).EndOfInput?
    ensures Track(input, pillars).Done? ==>
              WriteAll(paths, fs, date, Zip(Keys(paths), Track(input, pillars).value)).Written?
    ensures Run(pillars, paths, date, input, fs).Done? ==>
              && Run(pillars, paths, date, input, fs).consumed == Track(input, pillars).consumed
              && (forall i :: 0 <= i < |paths| ==>
                    Contents(Run(pillars, paths, date, input, fs).value, paths[i].1)
                      == Contents(fs, paths[i].1) + Entry(date, Track(input, pillars).value[i]))
              && (forall q :: q !in Files(paths) ==>
                    && (q in Run(pillars, paths, date, input, fs).value <==> q in fs)
                    && Contents(Run(pillars, paths, date, input, fs).value, q) == Contents(fs, q))
  {
    match Track(input, pillars)
    case EndOfInput =>
    case Done(groups, n) =>
      var zipped := Zip(Keys(paths), groups);
      ZipKnown(paths, groups);
      WriteAllEffect(paths, fs, date, zipped);
      forall q | q !in Files(paths)
        ensures (q in WriteAll(paths, fs, date, zipped).files <==> q in fs)
        ensures Contents(WriteAll(paths, fs, date, zipped).files, q) == Contents(fs, q)
      {
        WriteAllUntouched(paths, fs, date, zipped, q);
      }
  }

  /** Running twice on the same answers appends the same entry twice to each pillar's
      file: nothing is deduplicated. */
  lemma RunTwice(pillars: seq<Pillar>, paths: seq<(string, string)>, date: string, input: seq<string>,
                 fs: FileSystem)
    requires Consistent(pillars, paths) && DistinctPaths(paths)
    requires Run(pillars, paths, date, input, fs).Done?
    ensures Run(pillars, paths, date, input, Run(pillars, paths, date, input, fs).value).Done?
    ensures forall i :: 0 <= i < |paths| ==>
              Contents(Run(pillars, paths, date, input, Run(pillars, paths, date, input, fs).value).value, paths[i].1)
                == Contents(fs, paths[i].1) + Entry(date, Track(input, pillars).value[i])
                   + Entry(date, Track(input, pillars).value[i])
  {
    var once := Run(pillars, paths, date, input, fs).value;
    RunEffect(pillars, paths, date, input, fs);
    RunEffect(pillars, paths, date, input, once);
  }

  /** Every activity takes at least one line: a run reads at least as many lines as
      there are activities, so with fewer lines it writes nothing. */
  lemma RunNeedsAnswers(pillars: seq<Pillar>, paths: seq<(string, string)>, date: string, input: seq<string>,
                        fs: FileSystem)
    requires Consistent(pillars, paths)
    ensures Run(pillars, paths, date, input, fs).Done? ==>
              |Flatten(pillars)| <= Run(pillars, paths, date, input, fs).consumed <= |input|
    ensures |input| < |Flatten(pillars)| ==> Run(pillars, paths, date, input, fs).EndOfInput?
  {
    TrackFlat(input, pillars);
  }

  /** A run of the tracker on its own catalog and files. Fewer than fourteen lines
      (one per activity) write nothing; a complete run reads at least fourteen lines
      and gives each of the five pillar files its entry, with one fragment per
      activity of the pillar. */
  lemma CatalogRun(date: string, input: seq<string>, fs: FileSystem)
    ensures |input| < 14 ==> Run(Pillars, PillarFiles, date, input, fs).EndOfInput?
    ensures Run(Pillars, PillarFiles, date, input, fs).Done? ==>
              && 14 <= Run(Pillars, PillarFiles, date, input, fs).consumed
              && |Track(input, Pillars).value| == 5
              && forall i :: 0 <= i < 5 ==>
                   && |Track(input, Pillars).value[i]| == |Pillars[i].activities|
                   && Contents(Run(Pillars, PillarFiles, date, input, fs).value, PillarFiles[i].1)
                        == Contents(fs, PillarFiles[i].1) + Entry(date, Track(input, Pillars).value[i])
  {
    CatalogShape();
    CatalogConsistent();
    RunNeedsAnswers(Pillars, PillarFiles, date, input, fs);
    RunEffect(Pillars, PillarFiles, date, input, fs);
    TrackFlat(input, Pillars);
  }

  /** When the first fourteen lines are acceptable answers in catalog order (the way
      the test driver feeds them), the run reads exactly those fourteen lines and the
      pillars' fragments, one pillar after the other, show them in that order. */
  lemma CatalogAllAccepted(input: seq<string>)
    requires 14 <= |input|
    requires forall k :: 0 <= k < 14 ==> Accepts(Flatten(Pillars)[k].domain, Strip(input[k]))
    ensures Track(input, Pillars).Done? && Track(input, Pillars).consumed == 14
    ensures Concat(Track(input, Pillars).value) == Rendered(Flatten(Pillars), input)
  {
    CatalogShape();
    AnswersAccepted(input, Flatten(Pillars));
    TrackFlat(input, Pillars);
  }

  /** The fragments hold one fragment of an acceptable answer per activity of the
      pillar, in order. */
  ghost predicate PillarAnswered(pillar: Pillar, fragments: seq<string>) {
    |fragments| == |pillar.activities|
    && forall k :: 0 <= k < |fragments| ==> Answered(pillar.activities[k], fragments[k])
  }

  /** One group of fragments per pillar, each answering its own pillar. */
  ghost predicate AllAnswered(pillars: seq<Pillar>, groups: seq<seq<string>>) {
    |groups| == |pillars| && forall i :: 0 <= i < |pillars| ==> PillarAnswered(pillars[i], groups[i])
  }

  /** Each pillar's fragments are its own activities' fragments of acceptable answers. */
  lemma {:induction false} SectionsSpec(input: seq<string>, pillars: seq<Pillar>)
    ensures Sections(input, pillars).Done? ==> AllAnswered(pillars, Sections(input, pillars).value)
    decreases |pillars|
  {
    if pillars != [] {
      AnswersSpec(input, pillars[0].activities);
      match Answers(input, pillars[0].activities)
      case EndOfInput =>
      case Done(fs, n) =>
        assert PillarAnswered(pillars[0], fs);
        SectionsSpec(input[n..], pillars[1..]);
        match Sections(input[n..], pillars[1..])
        case EndOfInput =>
        case Done(groups, m) =>
          assert Sections(input, pillars).value == [fs] + groups;
          forall i | 0 <= i < |pillars| ensures PillarAnswered(pillars[i], ([fs] + groups)[i]) {
            if i > 0 {
              assert ([fs] + groups)[i] == groups[i - 1] && pillars[i] == pillars[1..][i - 1];
            }
          }
    }
  }

  /** The characters the catalog's activity names are made of. */
  predicate IsNameChar(c: char) {
    ('a' <= c <= 'z') || ('A' <= c <= 'Z') || c == ' ' || c == '.' || c == '-'
  }

  /** An activity name that fits in a log line: letters, spaces, dots and hyphens,
      starting with a visible character. */
  predicate CleanName(name: string) {
    name != [] && name[0] != ' ' && forall i :: 0 <= i < |name| ==> IsNameChar(name[i])
  }

  /** A clean name holds none of the characters the log format uses as separators
      and does not start with whitespace. */
  lemma CleanNameSeparators(name: string)
    requires CleanName(name)
    ensures '|' !in name && '\n' !in name && ':' !in name && !IsWhitespace(name[0])
  {
    assert !IsNameChar('|') && !IsNameChar('\n') && !IsNameChar(':');
  }

  /** The fragment of an acceptable answer of a cleanly named activity holds no '|'
      and no newline and has no surrounding whitespace. */
  lemma AnsweredClean(activity: Activity, fragment: string)
    requires Answered(activity, fragment) && CleanName(activity.name)
    ensures '|' !in fragment && '\n' !in fragment && IsStripped(fragment)
  {
    var value :| Accepts(activity.domain, value) && fragment == Render(activity, value);
    AcceptedIsDigits(activity.domain, value);
    UnitPlain(activity.domain, activity.name, value);
    FragmentClean(activity.name, value, Unit(activity.domain, activity.name, value));
  }

  /** "name: value unit" keeps out what its three parts keep out, and is stripped
      when the name starts and the unit ends with a visible character. */
  lemma FragmentClean(name: string, value: string, unit: string)
    requires CleanName(name) && IsDigitString(value) && unit != [] && IsStripped(unit)
    requires '|' !in unit && '\n' !in unit
    ensures '|' !in Fragment(name, value, unit) && '\n' !in Fragment(name, value, unit)
    ensures IsStripped(Fragment(name, value, unit))
  {
    var f := Fragment(name, value, unit);
    CleanNameSeparators(name);
    assert '|' !in value && '\n' !in value by {
      assert !IsDigit('|') && !IsDigit('\n');
    }
    assert f == name + (": " + value + " " + unit);
    assert f[0] == name[0];
    assert f[|f| - 1] == unit[|unit| - 1];
  }

  /** Every activity in the list is cleanly named. */
  predicate NamesClean(activities: seq<Activity>) {
    forall k :: 0 <= k < |activities| ==> CleanName(activities[k].name)
  }

  /** Every activity of the catalog is cleanly named. */
  lemma CatalogNamesClean()
    ensures forall i :: 0 <= i < |Pillars| ==> NamesClean(Pillars[i].activities)
  {
    AIEngineerNamesClean();
    HealthNamesClean();
    HomeNamesClean();
    LeisureNamesClean();
    CommunityNamesClean();
  }

  lemma AIEngineerNamesClean() ensures NamesClean(Pillars[0].activities) {
    assert CleanName("Grokking ML"); assert CleanName("Fast.ai DL");
  }

  lemma HealthNamesClean() ensures NamesClean(Pillars[1].activities) {
    assert CleanName("Walking"); assert CleanName("Meditation"); assert CleanName("Sleeping"); assert CleanName("Napping");
  }

  lemma HomeNamesClean() ensures NamesClean(Pillars[2].activities) {
    assert CleanName("Cooking"); assert CleanName("Cleanup");
  }

  lemma LeisureNamesClean() ensures NamesClean(Pillars[3].activities) {
    assert CleanName("TV Binging"); assert CleanName("Reading Non-Fiction"); assert CleanName("Painting"); assert CleanName("Journaling");
  }

  lemma CommunityNamesClean() ensures NamesClean(Pillars[4].activities) {
    assert CleanName("Blogging"); assert CleanName("Github Streak");
  }

  /** Each pillar's fragments are fragments of acceptable answers of its own
      activities, in order. */
  lemma TrackSpec(input: seq<string>, pillars: seq<Pillar>)
    ensures Track(input, pillars).Done? ==> AllAnswered(pillars, Track(input, pillars).value)
  {
    TrackFromSections(input, pillars, 0, 0, []);
    assert input[0..] == input && pillars[0..] == pillars;
    SectionsSpec(input, pillars);
    match Sections(input, pillars)
    case EndOfInput =>
    case Done(groups, n) => assert [] + groups == groups;
  }

  /** A run, with a date free of '|' and newlines and no surrounding whitespace,
      over cleanly named pillars that each have activities, on log files that each
      end with a complete line, adds exactly one line to each pillar's log, and that
      line reads back, split on '|' and stripped, as the date followed by the
      pillar's fragments. */
  lemma RunLog(pillars: seq<Pillar>, paths: seq<(string, string)>, date: string, input: seq<string>,
               fs: FileSystem)
    requires Consistent(pillars, paths) && DistinctPaths(paths)
    requires forall i :: 0 <= i < |pillars| ==> pillars[i].activities != [] && NamesClean(pillars[i].activities)
    requires '|' !in date && '\n' !in date && IsStripped(date)
    requires forall i :: 0 <= i < |paths| ==> IsTerminated(Contents(fs, paths[i].1))
    ensures Run(pillars, paths, date, input, fs).Done? ==>
              && |Track(input, pillars).value| == |paths|
              && forall i :: 0 <= i < |paths| ==>
                   && IsTerminated(Contents(Run(pillars, paths, date, input, fs).value, paths[i].1))
                   && LogLines(Contents(Run(pillars, paths, date, input, fs).value, paths[i].1))
                        == LogLines(Contents(fs, paths[i].1)) + [LogLine(date, Track(input, pillars).value[i])]
                   && Fields(LogLine(date, Track(input, pillars).value[i]), '|') == [date] + Track(input, pillars).value[i]
  {
    RunEffect(pillars, paths, date, input, fs);
    if Run(pillars, paths, date, input, fs).Done? {
      var data := Track(input, pillars).value;
      TrackSpec(input, pillars);
      forall i | 0 <= i < |paths|
        ensures && IsTerminated(Contents(Run(pillars, paths, date, input, fs).value, paths[i].1))
                && LogLines(Contents(Run(pillars, paths, date, input, fs).value, paths[i].1))
                     == LogLines(Contents(fs, paths[i].1)) + [LogLine(date, data[i])]
                && Fields(LogLine(date, data[i]), '|') == [date] + data[i]
      {
        assert PillarAnswered(pillars[i], data[i]);
        PillarFragmentsClean(pillars[i], data[i]);
        EntryAddsLine(Contents(fs, paths[i].1), date, data[i]);
        LogLineFields(date, data[i]);
      }
    }
  }

  /** RunLog for the tracker's own catalog and files. */
  lemma CatalogLog(date: string, input: seq<string>, fs: FileSystem)
    requires '|' !in date && '\n' !in date && IsStripped(date)
    requires forall i :: 0 <= i < |PillarFiles| ==> IsTerminated(Contents(fs, PillarFiles[i].1))
    ensures Run(Pillars, PillarFiles, date, input, fs).Done? ==>
              && |Track(input, Pillars).value| == |PillarFiles|
              && forall i :: 0 <= i < |PillarFiles| ==>
                   && IsTerminated(Contents(Run(Pillars, PillarFiles, date, input, fs).value, PillarFiles[i].1))
                   && LogLines(Contents(Run(Pillars, PillarFiles, date, input, fs).value, PillarFiles[i].1))
                        == LogLines(Contents(fs, PillarFiles[i].1)) + [LogLine(date, Track(input, Pillars).value[i])]
                   && Fields(LogLine(date, Track(input, Pillars).value[i]), '|') == [date] + Track(input, Pillars).value[i]
  {
    CatalogConsistent();
    CatalogNamesClean();
    assert forall i :: 0 <= i < |Pillars| ==> Pillars[i].activities != [];
    RunLog(Pillars, PillarFiles, date, input, fs);
  }

  /** Fragments of acceptable answers of a cleanly named pillar are clean, and there is
      at least one when the pillar has activities. */
  lemma PillarFragmentsClean(pillar: Pillar, fragments: seq<string>)
    requires NamesClean(pillar.activities) && PillarAnswered(pillar, fragments)
    ensures forall k :: 0 <= k < |fragments| ==> '|' !in fragments[k] && '\n' !in fragments[k] && IsStripped(fragments[k])
  {
    forall k | 0 <= k < |fragments|
      ensures '|' !in fragments[k] && '\n' !in fragments[k] && IsStripped(fragments[k])
    {
      AnsweredClean(pillar.activities[k], fragments[k]);
    }
  }

  /** A line of decimal digits is its own strip. */
  lemma StripDigits(s: string)
    requires AllDigits(s)
    ensures Strip(s) == s
  {
    StripPadded("", s, "");
    assert "" + s + "" == s;
  }

  /** The Health lines of the console session the test driver feeds the tracker:
      "30", "1", "8" and "0" answer Walking, Meditation, Sleeping and Napping with
      the units min, session, hr and min, reading one line each. */
  lemma HealthExample()
    ensures Answers(["30", "1", "8", "0"], Pillars[1].activities).Done?
    ensures Answers(["30", "1", "8", "0"], Pillars[1].activities).consumed == 4
    ensures |Answers(["30", "1", "8", "0"], Pillars[1].activities).value| == 4
    ensures Answers(["30", "1", "8", "0"], Pillars[1].activities).value[0] == Fragment("Walking", "30", "min")
    ensures Answers(["30", "1", "8", "0"], Pillars[1].activities).value[1] == Fragment("Meditation", "1", "session")
    ensures Answers(["30", "1", "8", "0"], Pillars[1].activities).value[2] == Fragment("Sleeping", "8", "hr")
    ensures Answers(["30", "1", "8", "0"], Pillars[1].activities).value[3] == Fragment("Napping", "0", "min")
  {
    var lines := ["30", "1", "8", "0"];
    var acts := Pillars[1].activities;
    HealthAccepted();
    AnswersAccepted(lines, acts);
    HealthRenders();
    var r := Rendered(acts, lines);
    assert r[0] == Fragment("Walking", "30", "min") && r[1] == Fragment("Meditation", "1", "session");
    assert r[2] == Fragment("Sleeping", "8", "hr") && r[3] == Fragment("Napping", "0", "min");
  }

  /** Each of the Health lines above is acceptable for its activity. */
  lemma HealthAccepted()
    ensures forall k :: 0 <= k < 4 ==> Accepts(Pillars[1].activities[k].domain, Strip(["30", "1", "8", "0"][k]))
  {
    StripDigits("30");
    StripDigits("1");
    StripDigits("8");
    StripDigits("0");
    assert NatToString(30) == "30" && NatToString(1) == "1" && NatToString(8) == "8";
  }

  /** The units the chain picks for the Health answers above. */
  lemma HealthRenders()
    ensures Render(Pillars[1].activities[0], "30") == Fragment("Walking", "30", "min")
    ensures Render(Pillars[1].activities[1], "1") == Fragment("Meditation", "1", "session")
    ensures Render(Pillars[1].activities[2], "8") == Fragment("Sleeping", "8", "hr")
    ensures Render(Pillars[1].activities[3], "0") == Fragment("Napping", "0", "min")
  {
  }
}
