/**
 * The body `zdev pr` gives a pull request: the text passed with `--body`,
 * then a Preview section, a Changes section and a Summary section, each
 * when there is something to put in it, then the zdev footer unless the
 * body already carries it.
 */
module PrBody {
  import opened Text
  import opened Strings

  // ---------------------------------------------------------------------------
  // The footer

  /** The footer's opening: a rule, then the start of an italic line. */
  const FooterLead: string := "\n\n---\n*"

  /** The words before the link, and the link's text. */
  const CreatedWith: string := "Created with "
  const LinkText: string := "[zdev]"

  /** The link's target and the end of the italic line. */
  const LinkTarget: string := "(https://github.com/5hanth/zdev)*"

  /** The footer `pr` appends. */
  const Footer: string := FooterLead + CreatedWith + LinkText + LinkTarget

  /** The text `pr` looks for to decide that the footer is already there. */
  const FooterMarker: string := "Created with zdev"

  /** The beginning of the footer as it is written, which the corrected rule also looks for. */
  const FooterLink: string := CreatedWith + LinkText

  /** The footer rule as written: append the footer unless the body contains the marker. */
  function AddFooterAsWritten(body: string): string
  {
    if Contains(body, FooterMarker) then body else Trim(body) + Footer
  }

  /**
   * The footer rule as intended: the body is left alone when it already
   * carries the marker or the footer's own text, otherwise it is trimmed
   * and the footer appended.
   */
  function AddFooter(body: string): string
  {
    if Contains(body, FooterMarker) || Contains(body, FooterLink) then body else Trim(body) + Footer
  }

  /** The footer contains its own link text. */
  lemma FooterHasLink(prefix: string)
    ensures Contains(prefix + Footer, FooterLink)
  {
    assert prefix + Footer == (prefix + FooterLead) + FooterLink + LinkTarget;
    ContainsMiddle(prefix + FooterLead, FooterLink, LinkTarget);
  }

  /**
   * The corrected rule always leaves the footer's text in the body, and
   * applying it a second time changes nothing.
   */
  lemma AddFooterIdempotent(body: string)
    ensures Contains(AddFooter(body), FooterLink) || Contains(AddFooter(body), FooterMarker)
    ensures AddFooter(AddFooter(body)) == AddFooter(body)
  {
    if !Contains(body, FooterMarker) && !Contains(body, FooterLink) {
      FooterHasLink(Trim(body));
    }
  }

  /** The footer does not contain the marker the written rule looks for. */
  lemma FooterLacksMarker()
    ensures !Contains(Footer, FooterMarker)
  {
    assert Footer == (FooterLead + CreatedWith) + (LinkText + LinkTarget);
    assert FooterMarker[12] == ' ' && FooterMarker[13] == 'z';
    NoPairAcross(FooterLead + CreatedWith, LinkText + LinkTarget, FooterMarker, 12);
  }

  /**
   * The written rule is not idempotent: an empty body gets the footer, and
   * a body holding that footer gets a second one.
   */
  lemma FooterAddedTwice()
    ensures AddFooterAsWritten("") == Footer
    ensures AddFooterAsWritten(Footer) != Footer
    ensures |AddFooterAsWritten(AddFooterAsWritten(""))| > |AddFooterAsWritten("")|
  {
    ContainsIff("", FooterMarker);
    assert Trim("") == "";
    FooterLacksMarker();
    assert !IsSpace(Footer[6]);
    assert Trim(Footer) != [];
  }

  // ---------------------------------------------------------------------------
  // The sections

  /** The link symbol that starts the preview line. */
  const LinkSymbol: string := "\U{1F517} "

  /**
   * What `pr` knows when it builds the body; an empty string stands for a
   * value that is absent or empty.
   */
  datatype BodyInputs = BodyInputs(
    body: string,
    publicUrl: string,
    devDomain: string,
    featureName: string,
    projectName: string,
    aiBody: string,
    commits: seq<string>,
    diffStat: string)

  /** The preview address: the allocation's public URL, else one built from the project, feature and domain. */
  function PreviewUrl(i: BodyInputs): string
  {
    if i.publicUrl != [] then i.publicUrl
    else if i.devDomain != [] && i.featureName != [] && i.projectName != [] then
      "https://" + i.projectName + "-" + i.featureName + "." + i.devDomain
    else ""
  }

  /** The Preview section for an address. */
  function PreviewSection(url: string): string
  {
    "## Preview\n" + LinkSymbol + url + "\n\n"
  }

  /** The bullet line for one commit. */
  function CommitLine(c: string): string
  {
    "- " + c + "\n"
  }

  /** One bullet per commit, in order. */
  function CommitLines(commits: seq<string>): string
  {
    if commits == [] then []
    else CommitLines(commits[..|commits| - 1]) + CommitLine(commits[|commits| - 1])
  }

  /** The heading of the Changes section. */
  const ChangesHeading := "## Changes\n"

  /** The Changes section holding the AI body. */
  function AiSection(aiBody: string): string
  {
    ChangesHeading + aiBody + "\n\n"
  }

  /** The Changes section: the AI body, else the commit list, else nothing. */
  function Changes(i: BodyInputs): string
  {
    if i.aiBody != [] then AiSection(i.aiBody)
    else if |i.commits| > 0 then ChangesHeading + CommitLines(i.commits) + "\n"
    else ""
  }

  /** The Summary section for a `--shortstat` line. */
  function SummarySection(diffStat: string): string
  {
    "## Summary\n```\n" + diffStat + "\n```\n\n"
  }

  /** The body as given, followed by the Preview section when there is an address. */
  function Opening(i: BodyInputs): string
  {
    var url := PreviewUrl(i);
    i.body + (if url != [] then PreviewSection(url) else "")
  }

  /** The Summary section when there is a `--shortstat` line. */
  function Closing(i: BodyInputs): string
  {
    if i.diffStat != [] then SummarySection(i.diffStat) else ""
  }

  /** The body before the footer rule. */
  function RawBody(i: BodyInputs): string
  {
    Opening(i) + Changes(i) + Closing(i)
  }

  /** The body `pr` passes to `gh pr create`. */
  function Body(i: BodyInputs): string
  {
    AddFooter(RawBody(i))
  }

  /** The `forEach` over the commits: one bullet line appended per commit. */
  method AppendCommitLines(start: string, commits: seq<string>) returns (body: string)
    ensures body == start + CommitLines(commits)
  {
    body := start;
    for k := 0 to |commits|
      invariant body == start + CommitLines(commits[..k])
    {
      assert commits[..k + 1][..k] == commits[..k];
      body := body + CommitLine(commits[k]);
    }
    assert commits[..|commits|] == commits;
  }

  /** `pr`'s body construction up to the footer: appends section after section to `body`. */
  method BuildRawBody(i: BodyInputs) returns (body: string)
    ensures body == RawBody(i)
  {
    body := i.body;
    if i.publicUrl != [] {
      body := body + PreviewSection(i.publicUrl);
    } else if i.devDomain != [] && i.featureName != [] && i.projectName != [] {
      var previewUrl := "https://" + i.projectName + "-" + i.featureName + "." + i.devDomain;
      body := body + PreviewSection(previewUrl);
    }
    assert body == Opening(i);
    if i.aiBody != [] {
      body := body + AiSection(i.aiBody);
    } else if |i.commits| > 0 {
      body := body + ChangesHeading;
      body := AppendCommitLines(body, i.commits);
      body := body + "\n";
      calc {
        body;
        Opening(i) + ChangesHeading + CommitLines(i.commits) + "\n";
        Opening(i) + (ChangesHeading + CommitLines(i.commits) + "\n");
      }
    }
    assert body == Opening(i) + Changes(i);
    if i.diffStat != [] {
      body := body + SummarySection(i.diffStat);
    }
  }

  /** `pr`'s body: the sections, then the footer unless the body already carries it. */
  method BuildBody(i: BodyInputs) returns (body: string)
    ensures body == Body(i)
  {
    body := BuildRawBody(i);
    if !(Contains(body, FooterMarker) || Contains(body, FooterLink)) {
      body := Trim(body) + Footer;
    }
  }

  // ---------------------------------------------------------------------------
  // Properties

  /** The commit list of two runs of commits is the list of the first followed by that of the second. */
  lemma {:induction false} CommitLinesConcat(a: seq<string>, b: seq<string>)
    ensures CommitLines(a + b) == CommitLines(a) + CommitLines(b)
    decreases |b|
  {
    if b == [] {
      assert a + b == a;
    } else {
      var b' := b[..|b| - 1];
      CommitLinesConcat(a, b');
      assert (a + b)[..|a + b| - 1] == a + b';
      assert (a + b)[|a + b| - 1] == b[|b| - 1];
      var l := CommitLine(b[|b| - 1]);
      calc {
        CommitLines(a + b);
        CommitLines(a + b') + l;
        (CommitLines(a) + CommitLines(b')) + l;
        CommitLines(a) + (CommitLines(b') + l);
      }
    }
  }

  /** One more commit adds its bullet line at the end. */
  lemma CommitLinesSnoc(a: seq<string>, c: string)
    ensures CommitLines(a + [c]) == CommitLines(a) + CommitLine(c)
  {
    assert (a + [c])[..|a|] == a;
  }

  /** Every commit has its own bullet line in the commit list, after those of the commits before it. */
  lemma CommitListed(cs: seq<string>, k: nat)
    requires k < |cs|
    ensures OccursAt(CommitLines(cs), CommitLine(cs[k]), |CommitLines(cs[..k])|)
  {
    var head, rest := cs[..k + 1], cs[k + 1..];
    assert head + rest == cs;
    assert head == cs[..k] + [cs[k]];
    CommitLinesConcat(head, rest);
    CommitLinesSnoc(cs[..k], cs[k]);
  }

  /** The AI body, when there is one, appears in the body before the footer. */
  lemma RawBodyHasAiBody(i: BodyInputs)
    requires i.aiBody != []
    ensures OccursAt(RawBody(i), i.aiBody, |Opening(i)| + 11)
  {
    assert AiSection(i.aiBody)[11..11 + |i.aiBody|] == i.aiBody;
    OccursWithin(Opening(i), Changes(i), Closing(i), i.aiBody, 11);
  }

  /**
   * Without an AI body, every commit appears in the body before the footer
   * as its own bullet line, after the lines of the commits before it.
   */
  lemma RawBodyListsCommits(i: BodyInputs, k: nat)
    requires i.aiBody == [] && k < |i.commits|
    ensures OccursAt(RawBody(i), CommitLine(i.commits[k]), |Opening(i)| + 11 + |CommitLines(i.commits[..k])|)
  {
    var line := CommitLine(i.commits[k]);
    var q := |CommitLines(i.commits[..k])|;
    CommitListed(i.commits, k);
    OccursWithin(ChangesHeading, CommitLines(i.commits), "\n", line, q);
    OccursWithin(Opening(i), Changes(i), Closing(i), line, 11 + q);
  }

  /** A preview address, when there is one, appears in the body before the footer. */
  lemma RawBodyHasPreview(i: BodyInputs)
    ensures PreviewUrl(i) != [] ==> Contains(RawBody(i), PreviewSection(PreviewUrl(i)))
    ensures i.publicUrl != [] ==> PreviewUrl(i) == i.publicUrl
  {
    var url := PreviewUrl(i);
    if url != [] {
      assert RawBody(i) == i.body + PreviewSection(url) + (Changes(i) + Closing(i));
      ContainsMiddle(i.body, PreviewSection(url), Changes(i) + Closing(i));
    }
  }

  /**
   * The body `pr` sends always carries the footer's text; unless the body
   * before the rule already had it, it is that body trimmed with the
   * footer at its end.
   */
  lemma BodyHasFooter(i: BodyInputs)
    ensures Contains(Body(i), FooterLink) || Contains(Body(i), FooterMarker)
    ensures !Contains(RawBody(i), FooterMarker) && !Contains(RawBody(i), FooterLink) ==>
      Body(i) == Trim(RawBody(i)) + Footer && EndsWith(Body(i), Footer)
  {
    AddFooterIdempotent(RawBody(i));
    var t := Trim(RawBody(i));
    assert (t + Footer)[|t + Footer| - |Footer|..] == Footer;
  }
}
