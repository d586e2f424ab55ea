/**
 * `get_user_confirmation`: the yes/no prompt. The responses the user types are
 * a sequence of lines and `pos` is the next one `input()` would return; when
 * none is left, `input()` raises EOFError.
 */
module Console {
  import opened Wrappers
  import opened Text

  /** A response as the prompt compares it: `strip().lower()`. */
  function Normalize(line: string): string {
    Lower(Strip(line))
  }

  predicate IsYes(line: string) {
    Normalize(line) == "y" || Normalize(line) == "yes"
  }

  predicate IsNo(line: string) {
    Normalize(line) == "n" || Normalize(line) == "no"
  }

  /**
   * The answer the prompt settles on from `pos` on, and the position after the
   * responses it consumed: the first yes-or-no response decides; every other
   * response is skipped and the question asked again; None when the input runs
   * out first.
   */
  function Confirmation(input: seq<string>, pos: nat): (r: (Option<bool>, nat))
    requires pos <= |input|
    ensures pos <= r.1 <= |input|
    ensures r.0.Some? ==> pos < r.1 && (IsYes(input[r.1 - 1]) || IsNo(input[r.1 - 1]))
                          && r.0.value == IsYes(input[r.1 - 1])
    ensures r.0.Some? ==> forall j :: pos <= j < r.1 - 1 ==> !IsYes(input[j]) && !IsNo(input[j])
    ensures r.0.None? ==> r.1 == |input| && forall j :: pos <= j < |input| ==> !IsYes(input[j]) && !IsNo(input[j])
    decreases |input| - pos
  {
    if pos == |input| then (None, pos)
    else if IsYes(input[pos]) then (Some(true), pos + 1)
    else if IsNo(input[pos]) then (Some(false), pos + 1)
    else Confirmation(input, pos + 1)
  }

  /** The prompt loop: reads responses until one is yes or no. */
  method GetUserConfirmation(input: seq<string>, pos: nat) returns (answer: Option<bool>, next: nat)
    requires pos <= |input|
    ensures pos <= next <= |input|
    ensures answer == Confirmation(input, pos).0 && next == Confirmation(input, pos).1
  {
    next := pos;
    while true
      invariant pos <= next <= |input|
      invariant Confirmation(input, next) == Confirmation(input, pos)
      decreases |input| - next
    {
      if next == |input| {
        return None, next;
      }
      var response := input[next];
      next := next + 1;
      if IsYes(response) {
        return Some(true), next;
      } else if IsNo(response) {
        return Some(false), next;
      }
    }
  }

  /** Normalizing a response padded with whitespace lowers its trimmed core. */
  lemma NormalizePadded(before: string, core: string, after: string)
    requires AllSpace(before) && AllSpace(after) && Trimmed(core)
    ensures Normalize(before + core + after) == Lower(core)
  {
    StripRemovesPadding(before, core, after);
  }

  /** Surrounding whitespace and letter case do not matter for a yes. */
  lemma YesExamples()
    ensures IsYes(" Yes\n") && IsYes("Y")
  {
    NormalizePadded(" ", "Yes", "\n");
    assert " " + "Yes" + "\n" == " Yes\n";
    assert Lower("Yes") == "yes";
    NormalizePadded("", "Y", "");
    assert "" + "Y" + "" == "Y";
    assert Lower("Y") == "y";
  }

  /** Surrounding whitespace and letter case do not matter for a no. */
  lemma NoExamples()
    ensures IsNo("NO ") && IsNo("\tn")
  {
    NormalizePadded("", "NO", " ");
    assert "" + "NO" + " " == "NO ";
    assert Lower("NO") == "no";
    NormalizePadded("\t", "n", "");
    assert "\t" + "n" + "" == "\tn";
  }

  /** There is no default: an empty response is neither yes nor no. */
  lemma EmptyRejected()
    ensures !IsYes("") && !IsNo("")
  {
    NormalizePadded("", "", "");
    assert |Normalize("")| == 0;
  }

  /** Words that merely begin like yes or no are rejected. */
  lemma LookalikesRejected()
    ensures !IsYes("yeah") && !IsNo("nope")
  {
    NormalizePadded("", "yeah", "");
    assert "" + "yeah" + "" == "yeah";
    assert |Normalize("yeah")| == 4;
    NormalizePadded("", "nope", "");
    assert "" + "nope" + "" == "nope";
    assert |Normalize("nope")| == 4;
  }
}
