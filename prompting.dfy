/** HabitTracker.prompt_activity: read console lines until one, once stripped, is an
    acceptable answer for the activity's domain. The console is the sequence of lines
    still to be read; running out of lines is where Python's input() raises EOFError. */
module Prompting {
  import opened Text
  import opened Catalog

  /** The outcome of reading from the console: a value together with the number of
      lines it took, or the end of the input before a value was complete. */
  datatype Progress<T> = Done(value: T, consumed: nat) | EndOfInput

  /** [str(opt) for opt in options] */
  function OptionStrings(options: seq<nat>): (r: seq<string>)
    ensures |r| == |options|
    ensures forall i :: 0 <= i < |options| ==> r[i] == NatToString(options[i])
    decreases |options|
  {
    if options == [] then [] else [NatToString(options[0])] + OptionStrings(options[1..])
  }

  /** The test prompt_activity applies to a stripped response: for a commit count,
      response.isdigit() or response == "0"; for a bounded domain, response == "0"
      or response among the options written as strings. */
  predicate Accepts(domain: Domain, response: string) {
    match domain
    case Commits => IsDigitString(response) || response == "0"
    case Bounded(options) => response == "0" || response in OptionStrings(options)
  }

  /** options_str, the list of choices shown in a bounded prompt: "0/" followed by
      the options joined with "/". */
  function ChoiceList(options: seq<nat>): string {
    "0/" + Join("/", OptionStrings(options))
  }

  /** The answer prompt_activity settles on: the first line that is acceptable once
      stripped, after as many rejected lines as come before it. */
  function Prompt(input: seq<string>, domain: Domain): (r: Progress<string>)
    ensures r.Done? ==> 0 < r.consumed <= |input|
    decreases |input|
  {
    if input == [] then EndOfInput
    else if Accepts(domain, Strip(input[0])) then Done(Strip(input[0]), 1)
    else
      match Prompt(input[1..], domain)
      case Done(v, n) => Done(v, n + 1)
      case EndOfInput => EndOfInput
  }

  /** The prompt settles on line n exactly when the stripped line n is acceptable and
      no line before it is; it runs out exactly when no line is acceptable. */
  lemma {:induction false} PromptSpec(input: seq<string>, domain: Domain)
    ensures Prompt(input, domain).Done? ==>
              && Prompt(input, domain).value == Strip(input[Prompt(input, domain).consumed - 1])
              && Accepts(domain, Prompt(input, domain).value)
              && forall j :: 0 <= j < Prompt(input, domain).consumed - 1 ==> !Accepts(domain, Strip(input[j]))
    ensures Prompt(input, domain).EndOfInput? ==>
              forall j :: 0 <= j < |input| ==> !Accepts(domain, Strip(input[j]))
    decreases |input|
  {
    if input != [] && !Accepts(domain, Strip(input[0])) {
      PromptSpec(input[1..], domain);
      assert forall j :: 1 <= j < |input| ==> input[j] == input[1..][j - 1];
    }
  }

  /** The retry loop of prompt_activity, which settles on the answer Prompt describes. */
  method PromptActivity(input: seq<string>, domain: Domain) returns (r: Progress<string>)
    ensures r == Prompt(input, domain)
  {
    var i := 0;
    while i < |input|
      invariant 0 <= i <= |input|
      invariant forall j :: 0 <= j < i ==> !Accepts(domain, Strip(input[j]))
      invariant Prompt(input, domain) == match Prompt(input[i..], domain)
                                         case Done(v, n) => Done(v, n + i)
                                         case EndOfInput => EndOfInput
    {
      var response := Strip(input[i]);
      assert input[i..][0] == input[i] && input[i..][1..] == input[i + 1..];
      if Accepts(domain, response) {
        return Done(response, i + 1);
      }
      i := i + 1;
    }
    return EndOfInput;
  }

  /** Every accepted response is a non-empty string of decimal digits. */
  lemma AcceptedIsDigits(domain: Domain, response: string)
    requires Accepts(domain, response)
    ensures IsDigitString(response)
  {
    if domain.Bounded? && response != "0" {
      var i :| 0 <= i < |domain.options| && OptionStrings(domain.options)[i] == response;
    }
  }

  /** A commit count is accepted exactly when it is a non-empty digit string: the
      extra test for "0" adds nothing. */
  lemma CommitsAccepts(response: string)
    ensures Accepts(Commits, response) <==> IsDigitString(response)
    ensures Accepts(Commits, "0") && Accepts(Commits, "007")
    ensures !Accepts(Commits, "") && !Accepts(Commits, "-1") && !Accepts(Commits, "1.5")
  {
    assert !IsDigit('-') && !IsDigit('.');
    assert "-1"[0] == '-' && "1.5"[1] == '.';
  }

  /** A bounded response is accepted exactly when it is a numeral written as str
      writes it (no sign, no leading zero) whose value is 0 or one of the options. */
  lemma BoundedAccepts(options: seq<nat>, response: string)
    ensures Accepts(Bounded(options), response) <==>
      IsCanonicalNumeral(response)
      && (NumeralValue(response) == 0 || NumeralValue(response) in options)
  {
    var strs := OptionStrings(options);
    if response == "0" {
      assert NumeralValue(response) == 0;
    } else if response in strs {
      var i :| 0 <= i < |strs| && strs[i] == response;
      NumeralOfNat(options[i]);
    }
    if IsCanonicalNumeral(response) {
      var v := NumeralValue(response);
      NatOfNumeral(response);
      if v in options {
        var i :| 0 <= i < |options| && options[i] == v;
        assert strs[i] == response;
      }
    }
  }

  /** For a non-empty option list, the accepted bounded responses are exactly the
      "/"-separated choices that the prompt displays. */
  lemma ChoicesAreAccepted(options: seq<nat>, response: string)
    requires |options| > 0
    ensures Accepts(Bounded(options), response) <==> response in Split(ChoiceList(options), '/')
  {
    var strs := OptionStrings(options);
    assert !IsDigit('/');
    assert forall i :: 0 <= i < |strs| ==> IsDigitString(strs[i]);
    SplitJoin(strs, '/');
    SplitWithout("0", '/');
    assert ChoiceList(options) == "0" + ['/'] + Join(['/'], strs);
    SplitAround("0", '/', Join(['/'], strs));
    assert Split(ChoiceList(options), '/') == ["0"] + strs;
  }

  /** The choice list for Grokking ML and Fast.ai DL. */
  lemma ChoiceListExample()
    ensures ChoiceList([30, 60]) == "0/30/60"
  {
  }

  /** Unacceptable lines are skipped: the prompt answers with the first good one. */
  lemma PromptSkipsRejected()
    ensures Prompt([" 45 ", "", "60 "], Bounded([30, 60])) == Done("60", 3)
  {
    var lines := [" 45 ", "", "60 "];
    var domain := Bounded([30, 60]);
    assert NatToString(30) == "30" && NatToString(60) == "60";
    assert OptionStrings([30, 60]) == ["30", "60"];
    StripPadded(" ", "45", " ");
    assert " " + "45" + " " == lines[0];
    assert !Accepts(domain, Strip(lines[0]));
    assert Strip(lines[1]) == "";
    assert !Accepts(domain, Strip(lines[1]));
    StripPadded("", "60", " ");
    assert "" + "60" + " " == lines[2];
    assert Accepts(domain, Strip(lines[2]));
    assert Prompt(lines[2..], domain) == Done("60", 1);
    assert lines[1..][1..] == lines[2..];
    assert Prompt(lines[1..], domain) == Done("60", 2);
  }

  /** Signs and decimal points are refused as commit counts, so such input runs out. */
  lemma PromptRunsOut()
    ensures Prompt(["-1", "1.5"], Commits) == EndOfInput
  {
    var lines := ["-1", "1.5"];
    assert !IsDigit('-') && !IsDigit('.');
    assert "-1"[0] == '-' && "1.5"[1] == '.';
    StripPadded("", "-1", "");
    StripPadded("", "1.5", "");
    assert "" + "-1" + "" == lines[0] && "" + "1.5" + "" == lines[1];
    assert Prompt(lines[1..], Commits) == EndOfInput;
  }
}
