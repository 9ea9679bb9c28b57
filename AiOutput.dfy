/**
 * Reading the title and the body out of what the `claude` command printed
 * for `zdev pr --ai`: the first `TITLE:` line gives the title, everything
 * after the first `BODY:` gives the body. The two regular expressions are
 * written out as matchers with JavaScript's greedy, backtracking and
 * leftmost semantics.
 */
module AiOutput {
  import opened Wrappers
  import opened Text
  import opened Strings

  /** The label of the title line. */
  const TitleLabel := "TITLE:"

  /** The label that opens the body. */
  const BodyLabel := "BODY:"

  /** Which of the two expressions: `/TITLE:\s*(.+)/` or `/BODY:\s*([\s\S]+)/`. */
  datatype Label = TitleLine | BodyRest

  /** The first position at or after `k` that holds a line terminator, or the end. */
  function LineEnd(o: string, k: nat): (e: nat)
    requires k <= |o|
    ensures k <= e <= |o|
    ensures forall q :: k <= q < e ==> !IsLineTerminator(o[q])
    ensures e == |o| || IsLineTerminator(o[e])
    decreases |o| - k
  {
    if k == |o| || IsLineTerminator(o[k]) then k else LineEnd(o, k + 1)
  }

  /** The last position in `[lo, hi)` whose character `.` matches. */
  function LastDotChar(o: string, lo: nat, hi: nat): (r: Option<nat>)
    requires hi <= |o|
    ensures r.Some? ==> lo <= r.value < hi && !IsLineTerminator(o[r.value])
    ensures r.Some? ==> forall q :: r.value < q < hi ==> IsLineTerminator(o[q])
    ensures r.None? ==> forall q :: lo <= q < hi ==> IsLineTerminator(o[q])
    decreases hi
  {
    if hi <= lo then None
    else if !IsLineTerminator(o[hi - 1]) then Some(hi - 1)
    else LastDotChar(o, lo, hi - 1)
  }

  /**
   * The captured group of a match starting at `p`, if one starts there.
   * `\s*` first takes the whole run of white space; when the group then
   * finds no character, `\s*` gives characters back one at a time, so the
   * group starts at the last position that can start it.
   */
  function CaptureAt(o: string, p: nat, l: Label): Option<string>
    requires p <= |o|
  {
    match l
    case TitleLine =>
      if !OccursAt(o, TitleLabel, p) then None
      else
        var k := SkipSpaces(o, p + 6);
        if k < |o| then Some(o[k..LineEnd(o, k)])
        else
          (match LastDotChar(o, p + 6, |o|)
           case Some(j) => Some(o[j..LineEnd(o, j)])
           case None => None)
    case BodyRest =>
      if !OccursAt(o, BodyLabel, p) then None
      else
        var k := SkipSpaces(o, p + 5);
        if k < |o| then Some(o[k..])
        else if p + 5 < |o| then Some(o[|o| - 1..])
        else None
  }

  /** The leftmost position at or after `from` where a match of `l` starts: what `String.prototype.match` finds. */
  function FirstCapture(o: string, from: nat, l: Label): (r: Option<nat>)
    requires from <= |o|
    ensures r.Some? ==> from <= r.value <= |o| && CaptureAt(o, r.value, l).Some?
    ensures r.Some? ==> forall q :: from <= q < r.value ==> CaptureAt(o, q, l).None?
    ensures r.None? ==> forall q :: from <= q <= |o| ==> CaptureAt(o, q, l).None?
    decreases |o| - from
  {
    if CaptureAt(o, from, l).Some? then Some(from)
    else if from == |o| then None
    else FirstCapture(o, from + 1, l)
  }

  /** The group captured by the leftmost match of `l` in `o`, if any. */
  function Capture(o: string, l: Label): Option<string>
  {
    match FirstCapture(o, 0, l)
    case Some(p) => CaptureAt(o, p, l)
    case None => None
  }

  predicate IsQuote(c: char)
  {
    c == '"' || c == '\''
  }

  /** `.replace(/^["']|["']$/g, "")`: one quote off the front and one off the end. */
  function StripQuotes(t: string): string
  {
    var a := if t != [] && IsQuote(t[0]) then 1 else 0;
    var b := if |t| > a && IsQuote(t[|t| - 1]) then |t| - 1 else |t|;
    t[a..b]
  }

  /** A generated title and description. */
  datatype AiText = AiText(title: string, body: string)

  /** The parse of the trimmed output: nothing without a title match; a missing body is empty. */
  function Parse(o: string): Option<AiText>
  {
    match Capture(o, TitleLine)
    case None => None
    case Some(t) =>
      var body := match Capture(o, BodyRest) case Some(b) => Trim(b) case None => "";
      Some(AiText(StripQuotes(Trim(t)), body))
  }

  /**
   * `generateWithAI` after the prompt is sent: nothing when `claude` is not
   * installed, when the run fails or prints nothing; otherwise the parse of
   * what it printed, trimmed.
   */
  function GenerateWithAi(claudeFound: bool, runOk: bool, stdout: string): Option<AiText>
  {
    if !claudeFound || !runOk || stdout == [] then None
    else Parse(Trim(stdout))
  }

  // ---------------------------------------------------------------------------
  // Properties

  /** A match of the title expression starts at `p` exactly when `TITLE:` is there and some later character can start the group. */
  lemma TitleCaptureIff(o: string, p: nat)
    requires p <= |o|
    ensures CaptureAt(o, p, TitleLine).Some? <==>
      OccursAt(o, TitleLabel, p) && exists j :: p + 6 <= j < |o| && !IsLineTerminator(o[j])
  {
    if OccursAt(o, TitleLabel, p) {
      var k := SkipSpaces(o, p + 6);
      if k < |o| {
        assert !IsLineTerminator(o[k]);
      } else if exists j :: p + 6 <= j < |o| && !IsLineTerminator(o[j]) {
        var j :| p + 6 <= j < |o| && !IsLineTerminator(o[j]);
        assert LastDotChar(o, p + 6, |o|).Some?;
      }
    }
  }

  /**
   * The output yields a result exactly when it holds `TITLE:` followed,
   * somewhere after it, by a character other than a line terminator.
   */
  lemma TitleFoundIff(o: string)
    ensures Parse(o).Some? <==>
      exists p: nat, j: nat :: OccursAt(o, TitleLabel, p) && p + 6 <= j < |o| && !IsLineTerminator(o[j])
  {
    if Parse(o).Some? {
      var p := FirstCapture(o, 0, TitleLine).value;
      TitleCaptureIff(o, p);
    }
    if exists p: nat, j: nat :: OccursAt(o, TitleLabel, p) && p + 6 <= j < |o| && !IsLineTerminator(o[j]) {
      var p: nat, j: nat :| OccursAt(o, TitleLabel, p) && p + 6 <= j < |o| && !IsLineTerminator(o[j]);
      TitleCaptureIff(o, p);
    }
  }

  /** Without any `BODY:`, the body is empty. */
  lemma NoBodyLabel(o: string)
    requires !Contains(o, BodyLabel)
    ensures Parse(o).Some? ==> Parse(o).value.body == []
  {
    ContainsIff(o, BodyLabel);
    assert FirstCapture(o, 0, BodyRest).None? by {
      forall q | 0 <= q <= |o|
        ensures CaptureAt(o, q, BodyRest).None?
      {
        assert !OccursAt(o, BodyLabel, q);
      }
    }
  }

  /** A title without quotes at its ends is kept as it is. */
  lemma StripQuotesPlain(t: string)
    requires t == [] || (!IsQuote(t[0]) && !IsQuote(t[|t| - 1]))
    ensures StripQuotes(t) == t
  {
  }

  /** One quote is removed from each end, whichever the two quotes are, and no more. */
  lemma StripQuotesWrapped(x: char, t: string, y: char)
    requires IsQuote(x) && IsQuote(y)
    ensures StripQuotes([x] + t + [y]) == t
    ensures StripQuotes([x] + t) == t || (t != [] && IsQuote(t[|t| - 1]) && StripQuotes([x] + t) == t[..|t| - 1])
  {
    var u := [x] + t + [y];
    assert u[1..|u| - 1] == t;
    var v := [x] + t;
    assert v[1..] == t;
    if t != [] {
      assert v[1..|v| - 1] == t[..|t| - 1];
    }
  }

  /** A title that is a single quote becomes empty. */
  lemma StripQuotesLone(x: char)
    requires IsQuote(x)
    ensures StripQuotes([x]) == []
  {
  }

  /** A title fit for the output: one line, no white space or quote at either end, no `BODY:` in it. */
  predicate PlainTitle(t: string)
  {
    t != [] && (forall q :: 0 <= q < |t| ==> !IsLineTerminator(t[q])) &&
    !IsSpace(t[0]) && !IsSpace(t[|t| - 1]) && !IsQuote(t[0]) && !IsQuote(t[|t| - 1]) &&
    !Contains(t, BodyLabel)
  }

  /** A body without white space at either end. */
  predicate PlainBody(b: string)
  {
    b != [] && !IsSpace(b[0]) && !IsSpace(b[|b| - 1])
  }

  /** The output in the format the prompt asks for. */
  function Formatted(t: string, b: string): string
  {
    "TITLE: " + t + "\nBODY:\n" + b
  }

  /** The title expression, on formatted output, captures the title line. */
  lemma TitleOfFormatted(t: string, b: string)
    requires PlainTitle(t) && PlainBody(b)
    ensures Capture(Formatted(t, b), TitleLine) == Some(t)
  {
    var o := Formatted(t, b);
    assert o == "TITLE: " + t + ("\nBODY:\n" + b);
    assert o[..7] == "TITLE: ";
    assert o[7..7 + |t|] == t;
    assert o[7 + |t|] == '\n';
    assert OccursAt(o, TitleLabel, 0) by {
      assert o[..6] == o[..7][..6];
    }
    var k := SkipSpaces(o, 6);
    assert o[6] == ' ' && o[7] == t[0];
    assert k == 7;
    var e := LineEnd(o, 7);
    assert forall q :: 7 <= q < 7 + |t| ==> o[q] == t[q - 7];
    assert e == 7 + |t|;
  }

  /** No `BODY:` starts in formatted output before the one that follows the title line. */
  lemma BodyLabelFirst(t: string, b: string)
    requires PlainTitle(t) && PlainBody(b)
    ensures forall q: nat :: q < 8 + |t| ==> !OccursAt(Formatted(t, b), BodyLabel, q)
  {
    var o := Formatted(t, b);
    assert o == "TITLE: " + t + ("\nBODY:\n" + b);
    assert o[..7] == "TITLE: ";
    assert o[7..7 + |t|] == t;
    assert o[7 + |t|] == '\n';
    ContainsIff(t, BodyLabel);
    forall q: nat | q < 8 + |t|
      ensures !OccursAt(o, BodyLabel, q)
    {
      if q + 5 <= |o| {
        assert o[q..q + 5][0] == o[q];
        if q < 7 {
          assert o[q] == o[..7][q];
        } else if q + 5 <= 7 + |t| {
          assert o[q..q + 5] == t[q - 7..q - 2];
          assert !OccursAt(t, BodyLabel, q - 7);
        } else {
          assert o[q..q + 5][7 + |t| - q] == o[7 + |t|];
        }
      }
    }
  }

  /** The body expression, on formatted output, captures the body. */
  lemma BodyOfFormatted(t: string, b: string)
    requires PlainTitle(t) && PlainBody(b)
    ensures Capture(Formatted(t, b), BodyRest) == Some(b)
  {
    var o := Formatted(t, b);
    var p := 8 + |t|;
    assert o == "TITLE: " + t + "\n" + ("BODY:\n" + b);
    assert o[p..] == "BODY:\n" + b;
    assert o[p..p + 5] == o[p..][..5];
    assert OccursAt(o, BodyLabel, p);
    assert o[p + 5] == '\n' && o[p + 6] == b[0];
    assert SkipSpaces(o, p + 5) == p + 6;
    assert o[p + 6..] == b;
    assert CaptureAt(o, p, BodyRest) == Some(b);
    BodyLabelFirst(t, b);
    var f := FirstCapture(o, 0, BodyRest);
    assert f.Some?;
    assert f.value == p;
  }

  /**
   * Output in the requested format, with any white space around it, parses
   * back to the title and the body it was made from.
   */
  lemma ParseFormatted(lead: string, t: string, b: string, trail: string)
    requires PlainTitle(t) && PlainBody(b)
    requires forall q :: 0 <= q < |lead| ==> IsSpace(lead[q])
    requires forall q :: 0 <= q < |trail| ==> IsSpace(trail[q])
    ensures GenerateWithAi(true, true, lead + Formatted(t, b) + trail) == Some(AiText(t, b))
  {
    var o := Formatted(t, b);
    assert o[0] == 'T' && o[|o| - 1] == b[|b| - 1];
    TrimAround(lead, o, trail);
    TitleOfFormatted(t, b);
    BodyOfFormatted(t, b);
    TrimKeeps(t);
    TrimKeeps(b);
  }

  /** Without `claude`, or when it fails or prints nothing, there is no result. */
  lemma NoResultWithoutOutput(claudeFound: bool, runOk: bool, stdout: string)
    requires !claudeFound || !runOk || Trim(stdout) == []
    ensures GenerateWithAi(claudeFound, runOk, stdout).None?
  {
    if claudeFound && runOk && stdout != [] {
      TitleFoundIff([]);
    }
  }
}
