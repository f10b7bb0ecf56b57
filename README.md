# Habit tracker, modelled in Dafny

The habit tracker is a console program. It asks about the day's habits, activity by
activity, grouped into five pillars (AIEngineer, Health, Home, Leisure, Community).
Answers are re-asked until they are acceptable:
- a bounded activity takes `0` or one of its options;
- the Github Streak activity takes any digit string (a commit count).

Each answer becomes a fragment of the form `"name: value unit"`. The unit comes from a
fixed chain of rules. Each pillar's fragments are then appended, as one line
`date | fragment | fragment ...`, to that pillar's log file.

This project models the core of `HabitTracker`:
- the catalog and the pillar files set up in its constructor;
- `prompt_activity`, with its acceptance tests and retry loop;
- `run_tracker`, with its two loops, the unit chain and the fragment format;
- `write_to_files`, with the entry format and the appends.

Modules:

- `Text` (text.dfy): the Python string built-ins the tracker relies on, restricted to
  ASCII: `str.strip`, `str.isdigit`, `str(int)` and `str.join`. It also has a
  single-character `split` and field stripping, used to read a log line back.
- `Catalog` (catalog.dfy): the pillars, their activities and their response domains.
  A domain is `Bounded(options)` or `Commits`. Also here: `pillar_files`, and
  dictionary lookup on association lists, which keep their insertion order as
  Python dictionaries do.
- `Prompting` (prompting.dfy): the acceptance predicate and the choice list shown in
  bounded prompts. The console is the sequence of lines still to be read. `Prompt`
  is what the retry loop settles on, and the method `PromptActivity` is that loop.
- `Persistence` (persistence.dfy): the file system is a map from path to contents,
  where a missing path is a file not created yet. Also here: `open(path, 'a')`
  followed by a write, the entry format, and `write_to_files` as a loop
  (`WriteToFiles`) proved equal to the function `WriteAll`.
- `Tracker` (tracker.dfy):
  - the unit chain and the fragment format;
  - the two loops of `run_tracker`, as the methods `AnswerActivity`,
    `PromptActivities`, `CollectAnswers` and `RunTracker`;
  - the functions they are proved equal to (`Answer`, `PromptFrom`, `TrackFrom`,
    `Run`);
  - the reference semantics `Answers` and `Sections`, which the loops are checked
    against (one fragment per activity, in catalog order, each activity answered
    from the line after the previous answer);
  - the lemmas about complete runs.

The console and the files are passed in and handed back as values. `input()` raising
`EOFError` at the end of the console lines is `EndOfInput`. In that case the program
stops before `write_to_files`, and the model writes nothing.

## Model

| member | source | states |
|---|---|---|
| Text.Strip | habit_tracker/habit_tracker.py:55 | the stripped response is no longer than the line and has no whitespace at either end; `Text.StripPadded` and `Text.StripIdempotent` state what it removes |
| Text.StripPadded | habit_tracker/habit_tracker.py:48 | strip removes exactly the whitespace around a text that has none at its own ends |
| Text.StripIdempotent | habit_tracker/habit_tracker.py:55 | stripping an already stripped response changes nothing |
| Text.NatToString | habit_tracker/habit_tracker.py:56 | `str(n)` is a numeral without sign or leading zero; `Text.NumeralOfNat`, `Text.NatOfNumeral` and `Text.NatToStringInjective` relate it to its value |
| Text.NumeralOfNat | habit_tracker/habit_tracker.py:56 | reading back the digits `str(n)` writes gives n |
| Text.NatOfNumeral | habit_tracker/habit_tracker.py:56 | a numeral without sign or leading zero is what `str` writes for its value |
| Text.NatToStringInjective | habit_tracker/habit_tracker.py:56 | distinct options have distinct strings |
| Text.Join | habit_tracker/habit_tracker.py:93 | `str.join`; `Text.JoinSplit`, `Text.SplitJoin` and `Text.JoinWithout` state that it is undone by a split and adds no character of its own |
| Text.JoinSplit | habit_tracker/habit_tracker.py:93 | joining the pieces of a split with the separator restores the text |
| Text.SplitJoin | habit_tracker/habit_tracker.py:53 | splitting a join of separator-free pieces gives the pieces back |
| Text.JoinWithout | habit_tracker/habit_tracker.py:93 | a character in neither the separator nor any piece is not in the join |
| Catalog.CatalogShape | habit_tracker/habit_tracker.py:10-43 | five pillars in the order of the pillar files, distinct keys, fourteen activities, AIEngineer's first and Community's last |
| Catalog.OptionsPositive | habit_tracker/habit_tracker.py:18-43 | every bounded option is positive and only Github Streak takes a commit count |
| Catalog.FilesDistinct | habit_tracker/habit_tracker.py:10-16 | two pillars with the same file are the same pillar |
| Catalog.Lookup | habit_tracker/habit_tracker.py:92 | dictionary lookup; `Catalog.LookupSpec` and `Catalog.LookupAt` state what it finds |
| Catalog.LookupSpec | habit_tracker/habit_tracker.py:92 | a dictionary lookup fails exactly when the key is absent and otherwise yields the value of the first entry with that key |
| Catalog.LookupAt | habit_tracker/habit_tracker.py:92 | with distinct keys, looking up an entry's key gives that entry's value |
| Prompting.OptionStrings | habit_tracker/habit_tracker.py:56 | one string per option, in order, each `str` of its option |
| Prompting.Prompt | habit_tracker/habit_tracker.py:45-58 | a settled prompt reads at least one line and no more lines than there are |
| Prompting.PromptSpec | habit_tracker/habit_tracker.py:47-58 | the prompt settles on line n exactly when stripped line n is acceptable and no earlier line is; the value is that stripped line; it runs out exactly when no line is acceptable |
| Prompting.PromptActivity | habit_tracker/habit_tracker.py:45-58 | the retry loop settles on the answer `Prompt` describes, with the same number of lines read |
| Prompting.Accepts | habit_tracker/habit_tracker.py:48-58 | the acceptance test of both branches; `Prompting.CommitsAccepts`, `Prompting.BoundedAccepts`, `Prompting.AcceptedIsDigits` and `Prompting.ChoicesAreAccepted` state which responses pass |
| Prompting.AcceptedIsDigits | habit_tracker/habit_tracker.py:49 | every accepted response is a non-empty digit string |
| Prompting.CommitsAccepts | habit_tracker/habit_tracker.py:48-51 | a commit count is accepted exactly when it is a digit string; "0" and "007" pass, "", "-1" and "1.5" do not |
| Prompting.BoundedAccepts | habit_tracker/habit_tracker.py:55-58 | a bounded response is accepted exactly when it is a numeral without sign or leading zero whose value is 0 or an option |
| Prompting.ChoicesAreAccepted | habit_tracker/habit_tracker.py:53-56 | for non-empty options, the accepted bounded responses are exactly the `/`-separated entries of the displayed choice list |
| Prompting.ChoiceList | habit_tracker/habit_tracker.py:53 | options_str; `Prompting.ChoicesAreAccepted` states that its entries are exactly the accepted responses, `Prompting.ChoiceListExample` gives one |
| Prompting.ChoiceListExample | habit_tracker/habit_tracker.py:53 | the choice list of the two AIEngineer activities is "0/30/60" |
| Prompting.PromptSkipsRejected | habit_tracker/habit_tracker.py:54-58 | " 45 " and "" are rejected for options 30/60, and the prompt settles on "60 " as "60" after three lines |
| Prompting.PromptRunsOut | habit_tracker/habit_tracker.py:47-51 | a console holding only "-1" and "1.5" never yields a commit count |
| Persistence.LogLine | habit_tracker/habit_tracker.py:93 | the entry's line; `Persistence.LogLineFields` states that it reads back as the date and the fragments |
| Persistence.Entry | habit_tracker/habit_tracker.py:93 | the line and its newline; `Persistence.EntryFields` and `Persistence.EntryAddsLine` state that it reads back and adds exactly one line to a log |
| Persistence.AppendFile | habit_tracker/habit_tracker.py:95-96 | after an append the file exists, has the text added at its end, and no other file changes |
| Persistence.WriteAll | habit_tracker/habit_tracker.py:90-96 | the files write_to_files leaves; `Persistence.WriteAllEffect`, `Persistence.WriteAllUntouched`, `Persistence.WriteAllGrows`, `Persistence.WriteAllStops` and `Persistence.WriteTwice` state its effect |
| Persistence.WriteToFiles | habit_tracker/habit_tracker.py:90-96 | the loop over pillar_data leaves the files `WriteAll` describes, stopping at the first pillar without a file |
| Persistence.WriteAllGrows | habit_tracker/habit_tracker.py:95-96 | no file disappears and every file's old contents is a prefix of its new contents |
| Persistence.WriteAllUntouched | habit_tracker/habit_tracker.py:90-96 | a file that belongs to no pillar of the data keeps its existence and its contents |
| Persistence.WriteAllEffect | habit_tracker/habit_tracker.py:90-96 | with known pillars and distinct files, every write succeeds and each pillar's file gains exactly its own entry at the end |
| Persistence.WriteAllStops | habit_tracker/habit_tracker.py:92 | a pillar without a file stops the writing there (KeyError), keeping the entries already written for the pillars before it |
| Persistence.WriteTwice | habit_tracker/habit_tracker.py:90-96 | writing the same data twice adds the same entry twice; nothing is deduplicated |
| Persistence.LookupInjective | habit_tracker/habit_tracker.py:92 | with distinct files, two pillars that look up the same file are the same pillar |
| Persistence.JoinedFields | habit_tracker/habit_tracker.py:93 | the " \| "-joined fragments split on '\|' and stripped give the fragments back |
| Persistence.RecordFields | habit_tracker/habit_tracker.py:93 | a log line followed by whitespace reads back, split on '\|' and stripped, as the date and the fragments |
| Persistence.EntryFields | habit_tracker/habit_tracker.py:93 | an entry reads back, split on '\|' and stripped, as its date and its fragments |
| Persistence.LogLineFields | habit_tracker/habit_tracker.py:93 | so does the entry's line without its newline |
| Persistence.AppendLine | habit_tracker/habit_tracker.py:95-96 | appending a newline-free line and a newline to a complete log adds exactly that line after the existing lines |
| Persistence.EntryAddsLine | habit_tracker/habit_tracker.py:93-96 | appending an entry to a complete log keeps it complete and adds exactly one line, the entry without its newline |
| Tracker.Unit | habit_tracker/habit_tracker.py:74-83 | the unit chain; `Tracker.UnitCases`, `Tracker.MeditationSingular` and `Tracker.UnitPlain` state which unit each answer gets |
| Tracker.UnitCases | habit_tracker/habit_tracker.py:74-83 | in both directions: commits exactly for commit counts, session exactly for Meditation answered "1", sessions for Meditation otherwise, hr exactly for Sleeping, min for every other bounded activity |
| Tracker.MeditationSingular | habit_tracker/habit_tracker.py:76-77 | for an accepted Meditation answer, the unit is singular exactly when the answer denotes one |
| Tracker.UnitPlain | habit_tracker/habit_tracker.py:74-83 | every unit is a non-empty stripped word with no colon, space, '\|' or newline |
| Tracker.Fragment | habit_tracker/habit_tracker.py:85 | the `name: value unit` format; `Tracker.FragmentFields` and `Tracker.FragmentClean` state that it splits back into its parts and keeps out separators |
| Tracker.FragmentFields | habit_tracker/habit_tracker.py:85 | a fragment splits back at its colon into the name and the rest, and the rest at its spaces into the value and the unit |
| Tracker.Render | habit_tracker/habit_tracker.py:72-85 | the fragment of an answer; `Tracker.RenderFields` and `Tracker.AnsweredClean` state that it splits back and holds no separator |
| Tracker.RenderFields | habit_tracker/habit_tracker.py:72-85 | the fragment of an accepted answer splits back into the activity name, the answer and its unit |
| Tracker.Answer | habit_tracker/habit_tracker.py:72-85 | an answered activity reads at least one line and no more lines than there are |
| Tracker.AnswerActivity | habit_tracker/habit_tracker.py:69-85 | the inner loop's body prompts, picks the unit and formats the fragment as `Answer` describes |
| Tracker.PromptFrom | habit_tracker/habit_tracker.py:68-85 | the inner loop, from a position, reads forward and never past the end of the input |
| Tracker.TrackFrom | habit_tracker/habit_tracker.py:66-85 | the outer loop yields one fragment list per remaining pillar and never reads past the end of the input |
| Tracker.KeyIndexSpec | habit_tracker/habit_tracker.py:85 | `pillar_data[pillar]` finds the first entry with the key and fails only when there is none |
| Tracker.PartialStep | habit_tracker/habit_tracker.py:85 | appending a pillar's fragments under its key fills in exactly the next pillar of pillar_data |
| Tracker.PartialAll | habit_tracker/habit_tracker.py:62-85 | once every pillar is filled in, pillar_data pairs each key of pillar_files with its fragments |
| Tracker.PromptActivities | habit_tracker/habit_tracker.py:68-85 | the inner loop yields what `PromptFrom` describes |
| Tracker.CollectedSpec | habit_tracker/habit_tracker.py:62-85 | after the loops pillar_data has exactly the keys of pillar_files, in order, and each key's list holds one fragment of an acceptable answer per activity of its pillar, in catalog order |
| Tracker.CollectAnswers | habit_tracker/habit_tracker.py:62-85 | the two loops leave pillar_data holding every key of pillar_files with its pillar's fragments, or stop at the end of the input |
| Tracker.RunTracker | habit_tracker/habit_tracker.py:60-87 | a run leaves the files `Run` describes: nothing written when the input runs out, otherwise every pillar's entry written |
| Tracker.Answers | habit_tracker/habit_tracker.py:68-72 | a completed answer list has one fragment per activity and takes at least one line per activity |
| Tracker.PromptFromAnswers | habit_tracker/habit_tracker.py:68-85 | the accumulating inner loop computes the reference semantics on the lines still ahead of it |
| Tracker.PromptAllAnswers | habit_tracker/habit_tracker.py:68-85 | one pillar's prompting from the start of the input is the reference semantics |
| Tracker.AnswersAppend | habit_tracker/habit_tracker.py:66-72 | answering two activity lists in a row is answering their concatenation, the second starting on the line after the first |
| Tracker.Sections | habit_tracker/habit_tracker.py:66-85 | a completed reference run has one fragment list per pillar |
| Tracker.SectionsShape | habit_tracker/habit_tracker.py:66-85 | each pillar's list has one fragment per activity of the pillar |
| Tracker.TrackFromSections | habit_tracker/habit_tracker.py:66-85 | the accumulating outer loop computes the per-pillar reference semantics |
| Tracker.SectionsFlat | habit_tracker/habit_tracker.py:66-72 | the per-pillar lists, one pillar after the other, are the answers to all activities in catalog order, with the same lines read, and one runs out exactly when the other does |
| Tracker.TrackFlat | habit_tracker/habit_tracker.py:66-85 | the loops' pillar lists have one fragment per activity and, concatenated, are the answers to all activities in catalog order |
| Tracker.AnswerAccepted | habit_tracker/habit_tracker.py:72-85 | an acceptable first line answers the activity alone, in one line |
| Tracker.AnswersAccepted | habit_tracker/habit_tracker.py:66-85 | when line k is acceptable for activity k for every k, each activity reads exactly one line and is rendered from it |
| Tracker.AnswerSpec | habit_tracker/habit_tracker.py:72-85 | an answered activity's fragment renders an acceptable value |
| Tracker.AnswersSpec | habit_tracker/habit_tracker.py:66-85 | every fragment of a completed list renders an acceptable value of its own activity |
| Tracker.SectionsSpec | habit_tracker/habit_tracker.py:66-85 | every pillar's list holds one acceptable answer's fragment per activity of the pillar, in order |
| Tracker.TrackSpec | habit_tracker/habit_tracker.py:66-85 | so do the lists the loops build |
| Tracker.CatalogConsistent | habit_tracker/habit_tracker.py:10-43 | the activities catalog and pillar_files name the same pillars in the same order, and no two pillars share a file |
| Tracker.ZipKnown | habit_tracker/habit_tracker.py:91-92 | pillar_data has distinct keys, every pillar in it has a file, key i's file is path i of pillar_files, and the files written are exactly the pillar files |
| Tracker.RunEffect | habit_tracker/habit_tracker.py:60-96 | for consistent pillars and files with no shared file: a run runs out of input exactly when the loops do; every write of a complete run succeeds (no KeyError); a complete run reads as many lines as the loops, gives each pillar's file exactly `Entry(date, fragments)` at its end, and leaves every other file's existence and contents unchanged |
| Tracker.RunTwice | habit_tracker/habit_tracker.py:60-96 | running the same session again on the files a run left adds the same entry a second time to each pillar's file |
| Tracker.RunNeedsAnswers | habit_tracker/habit_tracker.py:66-72 | a completed run reads at least one line per activity, and fewer lines than activities writes nothing |
| Tracker.CatalogRun | habit_tracker/habit_tracker.py:60-96 | on the tracker's own data: fewer than fourteen lines write nothing; a complete run reads at least fourteen and gives each of the five files its pillar's entry, with one fragment per activity |
| Tracker.CatalogAllAccepted | habit_tracker/test_run.py:24-41 | fourteen acceptable lines in catalog order are read exactly, and the pillars' fragments, concatenated, render them in order |
| Tracker.CleanNameSeparators | habit_tracker/habit_tracker.py:85 | a name made of letters, spaces, dots and hyphens that starts with a visible character holds no '\|', newline or colon |
| Tracker.FragmentClean | habit_tracker/habit_tracker.py:85 | a fragment keeps out the '\|' and newlines its parts keep out, and is stripped |
| Tracker.AnsweredClean | habit_tracker/habit_tracker.py:85 | the fragment of an acceptable answer of a cleanly named activity holds no '\|' and no newline and is stripped |
| Tracker.PillarFragmentsClean | habit_tracker/habit_tracker.py:85 | the same for every fragment of a pillar |
| Tracker.CatalogNamesClean | habit_tracker/habit_tracker.py:18-43 | every activity name of the catalog is cleanly named |
| Tracker.AIEngineerNamesClean | habit_tracker/habit_tracker.py:19-22 | the AIEngineer activities are cleanly named |
| Tracker.HealthNamesClean | habit_tracker/habit_tracker.py:23-28 | the Health activities are cleanly named |
| Tracker.HomeNamesClean | habit_tracker/habit_tracker.py:29-32 | the Home activities are cleanly named |
| Tracker.LeisureNamesClean | habit_tracker/habit_tracker.py:33-38 | the Leisure activities are cleanly named |
| Tracker.CommunityNamesClean | habit_tracker/habit_tracker.py:39-42 | the Community activities are cleanly named |
| Tracker.RunLog | habit_tracker/habit_tracker.py:85-96 | for a date without '\|', newlines or outer whitespace, clean names and complete logs, a run adds exactly one line to each pillar's log, and that line reads back, split on '\|' and stripped, as the date followed by the pillar's fragments |
| Tracker.CatalogLog | habit_tracker/habit_tracker.py:60-96 | the same for the tracker's own catalog and files |
| Tracker.StripDigits | habit_tracker/habit_tracker.py:55 | a line of digits is its own strip |
| Tracker.HealthAccepted | habit_tracker/test_run.py:27-30 | the driver's Health lines "30", "1", "8", "0" are acceptable for Walking, Meditation, Sleeping and Napping |
| Tracker.HealthRenders | habit_tracker/habit_tracker.py:74-85 | those answers get the units min, session, hr and min |
| Tracker.HealthExample | habit_tracker/test_run.py:27-30 | those four lines answer the Health pillar in four lines with "Walking: 30 min", "Meditation: 1 session", "Sleeping: 8 hr" and "Napping: 0 min" |

## Left out

- The date: `datetime.now().strftime(...)` is replaced by a date parameter, since the
  clock cannot be modelled.
- The program reads no command-line date (no `MMDDYYYY` argument); the model has none
  either.
- `Path`, `mkdir` and real files: the data directory is not modelled. Pillar files are
  the strings `data/<Pillar>.txt`, keys of a map from path to contents. Failing writes
  (permissions, a full disk) are not modelled.
- Console interaction: the prompt texts, the banners and the "Please enter ..." messages
  are output only and are left out. The choice list embedded in bounded prompts is
  modelled (`Prompting.ChoiceList`).
- Unicode: `str.strip` and `str.isdigit` are modelled on ASCII only. Strip removes
  characters 9-13 and 28-32; isdigit accepts '0'-'9'. Unicode digits and spaces are
  not modelled.
- Tracker.CollectAnswers: it extends a pillar's list in pillar_data once, with all of
  the pillar's fragments, after the inner loop ends; the source appends after every
  activity. The list is the same once the pillar is done. A run cut short by the end
  of input writes nothing either way.
- Tracker.RunTracker: requires the catalog's pillars and pillar_files to be the same
  pillars in the same order, without repetition. The tracker's own data meets this
  (`Tracker.CatalogConsistent`). A catalog pillar missing from pillar_files, where
  Python raises KeyError in the inner loop, is not modelled.
- `Persistence.WriteAll` does model that error path of `write_to_files`
  (`UnknownPillar`), for data that names a pillar without a file.
- A session of thirteen lines, one short of the fourteen activities, runs out of input
  at Github Streak and writes nothing (`Tracker.CatalogRun`).
- The driver's first input list (`test_inputs`) is never used by the driver, so it is
  not modelled.
- Tracker.HealthExample: reproduces the test driver's Health answers ("30", "1", "8",
  "0") as the four fragments "Walking: 30 min", "Meditation: 1 session",
  "Sleeping: 8 hr" and "Napping: 0 min", stated as `Fragment(name, value, unit)` terms
  rather than expanded string literals. It does not state the dated log line; that
  line is `Persistence.LogLine` of the date and these fragments, and for any run it is
  `Tracker.RunLog`. The other pillars are not given concrete answers; the general run
  over fourteen acceptable lines is `Tracker.CatalogAllAccepted`.
