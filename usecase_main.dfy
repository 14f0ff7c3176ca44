/**
 * `parse_usecases` (research_agent/usecase_main.py): the records `re.findall` finds in
 * the reply of the language model with the module's one fixed pattern, matched with
 * DOTALL. An entry of that pattern is
 *   - a header: two asterisks, one or more digits, a full stop and one whitespace character;
 *   - the title (group 1), matched lazily up to the first place where the rest matches;
 *   - `**:` and a line break, any whitespace, then the bold tag `**Explanation:**` or
 *     `**Description:**` (group 2 is its label);
 *   - the explanation (group 3), matched lazily;
 *   - a line break, any whitespace, then `**Practical Application:**` or `**Examples:**`
 *     (group 4);
 *   - the application (group 5), matched lazily up to the next line break, which ends
 *     the match.
 * The scanner below follows the backtracking order of the regex engine: every lazy
 * group takes the least length for which the rest of the pattern matches. The reply is
 * an input; the JSON text `json.dumps` makes of the records is not modelled.
 */
module UseCaseParser {
  import opened Wrappers
  import opened Strings

  /** One record of `parse_usecases`: title, explanation and practical applications. */
  datatype UseCase = UseCase(title: string, explanation: string, practicalApplication: seq<string>)

  /**
   * One match of the pattern: where it starts and ends in the text and its five groups
   * (title, explanation label, explanation, application label, application).
   */
  datatype Match = Match(
    start: nat, end: nat,
    title: string, expLabel: string, explanation: string, appLabel: string, application: string)

  /** The application part matched at a line break: its label, and group 5 as s[appStart..appEnd]. */
  datatype Tail = Tail(appLabel: string, appStart: nat, appEnd: nat)

  /** Everything after the title: the explanation label, group 3 as s[expStart..expEnd], and the application part. */
  datatype Rest = Rest(expLabel: string, expStart: nat, expEnd: nat, tail: Tail)

  /** The label whose tag was found, and the index after the tag; or none. */
  datatype Tagged = Untagged | Tagged(name: string, after: nat)

  const ExplanationLabel := "Explanation"
  const DescriptionLabel := "Description"
  const ApplicationLabel := "Practical Application"
  const ExamplesLabel := "Examples"

  /** What closes the title: `**:` and a line break. */
  const TitleEnd := "**:\n"

  /** A label as it stands in the reply: in bold, with its colon inside the bold markers. */
  function Tag(name: string): string
  {
    "**" + name + ":**"
  }

  // ---------------------------------------------------------------------------
  // The scanner

  /** How many characters matched by `\d` stand from i on (the greedy `\d+`). */
  function DigitRun(s: string, i: nat): (n: nat)
    requires i <= |s|
    ensures i + n <= |s|
    decreases |s| - i
  {
    if i < |s| && IsDigit(s[i]) then 1 + DigitRun(s, i + 1) else 0
  }

  /** How many whitespace characters stand from i on (the greedy `\s*`). */
  function SpaceRun(s: string, i: nat): (n: nat)
    requires i <= |s|
    ensures i + n <= |s|
    decreases |s| - i
  {
    if i < |s| && IsSpace(s[i]) then 1 + SpaceRun(s, i + 1) else 0
  }

  /**
   * The header at i: two asterisks, digits, a full stop and one whitespace character.
   * Gives the index after it, where the title starts. The greedy digit run can only be
   * followed by the full stop at its full length, so no shorter run needs trying.
   */
  function HeaderEnd(s: string, i: nat): (r: Option<nat>)
    requires i <= |s|
    ensures r.Some? ==> i < r.value <= |s|
  {
    if !OccursAt(s, "**", i) then None
    else
      var d := i + 2 + DigitRun(s, i + 2);
      if d > i + 2 && d + 2 <= |s| && s[d] == '.' && IsSpace(s[d + 1]) then Some(d + 2) else None
  }

  /** The tag of one of two labels at i, the first tried first: the label and the index after its tag. */
  function LabelAt(s: string, i: nat, first: string, second: string): (r: Tagged)
    ensures r.Tagged? ==> (r.name == first || r.name == second)
    ensures r.Tagged? ==> OccursAt(s, Tag(r.name), i) && r.after == i + |Tag(r.name)|
  {
    if OccursAt(s, Tag(first), i) then Tagged(first, i + |Tag(first)|)
    else if OccursAt(s, Tag(second), i) then Tagged(second, i + |Tag(second)|)
    else Untagged
  }

  /**
   * The application part at m: a line break, whitespace, an application tag, then
   * group 5 up to the next line break (lazily, so it holds none).
   */
  function TailAt(s: string, m: nat): (r: Option<Tail>)
    ensures r.Some? ==> m < r.value.appStart <= r.value.appEnd < |s|
  {
    if m < |s| && s[m] == '\n' then
      var w := m + 1 + SpaceRun(s, m + 1);
      match LabelAt(s, w, ApplicationLabel, ExamplesLabel)
      case Untagged => None
      case Tagged(name, a) =>
        var e := FindFrom(s, Newline, a);
        if e < 0 then None else Some(Tail(name, a, e))
    else None
  }

  /** The least index from k on whose mark is set. */
  function First(marks: seq<bool>, k: nat): (r: Option<nat>)
    ensures r.Some? ==> k <= r.value < |marks| && marks[r.value]
    decreases |marks| - k
  {
    if k >= |marks| then None
    else if marks[k] then Some(k)
    else First(marks, k + 1)
  }

  /** Where the application part matches, index by index. */
  function TailMarks(s: string): (marks: seq<bool>)
    ensures |marks| == |s|
  {
    seq(|s|, m requires 0 <= m < |s| => TailAt(s, m).Some?)
  }

  /** The least m from k on where the application part matches: where the lazy group 3 stops. */
  function FirstTail(s: string, k: nat): (r: Option<nat>)
    ensures r.Some? ==> k <= r.value < |s| && TailAt(s, r.value).Some?
  {
    First(TailMarks(s), k)
  }

  /** The part after the title at p: `**:` and a line break, whitespace, an explanation tag, group 3, the application part. */
  function RestAt(s: string, p: nat): (r: Option<Rest>)
    ensures r.Some? ==> p < r.value.expStart <= r.value.expEnd < r.value.tail.appStart
    ensures r.Some? ==> r.value.tail.appStart <= r.value.tail.appEnd < |s|
  {
    if OccursAt(s, TitleEnd, p) then RestFrom(s, p + 4) else None
  }

  /** What follows the title end, from k on: whitespace, an explanation tag, group 3, the application part. */
  function RestFrom(s: string, k: nat): (r: Option<Rest>)
    requires k <= |s|
    ensures r.Some? ==> k < r.value.expStart <= r.value.expEnd < r.value.tail.appStart
    ensures r.Some? ==> r.value.tail.appStart <= r.value.tail.appEnd < |s|
  {
    var w := k + SpaceRun(s, k);
    match LabelAt(s, w, ExplanationLabel, DescriptionLabel)
    case Untagged => None
    case Tagged(name, q) =>
      match FirstTail(s, q)
      case None => None
      case Some(m) => Some(Rest(name, q, m, TailAt(s, m).value))
  }

  /** Where the part after the title matches, index by index. */
  function RestMarks(s: string): (marks: seq<bool>)
    ensures |marks| == |s|
  {
    seq(|s|, p requires 0 <= p < |s| => RestAt(s, p).Some?)
  }

  /** The least p from k on where the part after the title matches: where the lazy group 1 stops. */
  function FirstRest(s: string, k: nat): (r: Option<nat>)
    ensures r.Some? ==> k <= r.value < |s| && RestAt(s, r.value).Some?
  {
    First(RestMarks(s), k)
  }

  /** The match of the pattern that starts at i, if any. */
  function MatchAt(s: string, i: nat): (r: Option<Match>)
    ensures r.Some? ==> r.value.start == i < r.value.end <= |s|
  {
    if i > |s| then None
    else
      match HeaderEnd(s, i)
      case None => None
      case Some(t) =>
        match FirstRest(s, t)
        case None => None
        case Some(p) =>
          var rest := RestAt(s, p).value;
          Some(Match(i, rest.tail.appEnd + 1, s[t..p], rest.expLabel, s[rest.expStart..rest.expEnd],
                     rest.tail.appLabel, s[rest.tail.appStart..rest.tail.appEnd]))
  }

  /** The match at every index of s (Python's `pattern.match(s, i)` for each i). */
  function Table(s: string): (t: seq<Option<Match>>)
    ensures |t| == |s| && MatchTable(t)
  {
    seq(|s|, i requires 0 <= i < |s| => MatchAt(s, i))
  }

  /** Each match in t is recorded at its start and ends after it, within t. */
  predicate MatchTable(t: seq<Option<Match>>)
  {
    forall k :: 0 <= k < |t| && t[k].Some? ==> t[k].value.start == k < t[k].value.end <= |t|
  }

  /** The scan of `re.findall` from i on: the leftmost match, then on from where it ends. */
  function Select(t: seq<Option<Match>>, i: nat): seq<Match>
    requires MatchTable(t)
    decreases |t| - i
  {
    if i >= |t| then []
    else
      match t[i]
      case Some(m) => [m] + Select(t, m.end)
      case None => Select(t, i + 1)
  }

  /** `pattern.findall(text)`: the matches of the scan from the start. */
  function FindAll(s: string): seq<Match>
  {
    Select(Table(s), 0)
  }

  /** The record of one match: title and explanation stripped, the non-blank stripped lines of the application. */
  function ToUseCase(m: Match): (u: UseCase)
    ensures IsStripped(u.title) && IsStripped(u.explanation)
    ensures forall j :: 0 <= j < |u.practicalApplication| ==>
              u.practicalApplication[j] != "" && IsStripped(u.practicalApplication[j])
  {
    UseCase(Strip(m.title), Strip(m.explanation), StrippedLines(Strip(m.application)))
  }

  /** f applied to each element, in order. */
  function Map<A, B>(f: A -> B, xs: seq<A>): (ys: seq<B>)
    ensures |ys| == |xs| && forall j :: 0 <= j < |xs| ==> ys[j] == f(xs[j])
  {
    seq(|xs|, j requires 0 <= j < |xs| => f(xs[j]))
  }

  lemma MapCons<A, B>(f: A -> B, x: A, xs: seq<A>)
    ensures Map(f, [x] + xs) == [f(x)] + Map(f, xs)
  {
    assert forall j :: 1 <= j < |xs| + 1 ==> ([x] + xs)[j] == xs[j - 1];
  }

  lemma MapSnoc<A, B>(f: A -> B, xs: seq<A>, x: A)
    ensures Map(f, xs + [x]) == Map(f, xs) + [f(x)]
  {
    assert forall j :: 0 <= j < |xs| ==> (xs + [x])[j] == xs[j];
  }

  /** One record per match, in the order of the matches. */
  function Records(ms: seq<Match>): (r: seq<UseCase>)
    ensures |r| == |ms|
  {
    Map(ToUseCase, ms)
  }

  /** The records `parse_usecases` returns for the reply. */
  function UseCasesOf(text: string): seq<UseCase>
  {
    Records(FindAll(text))
  }

  /** `parse_usecases`: the matches of the reply, then the loop that turns each into a record. */
  method ParseUseCases(text: string) returns (useCases: seq<UseCase>)
    ensures useCases == UseCasesOf(text)
  {
    var matches := FindAll(text);
    useCases := RecordsOfMatches(matches);
  }

  /** The loop of `parse_usecases`: one record appended per match. */
  method RecordsOfMatches(matches: seq<Match>) returns (useCases: seq<UseCase>)
    ensures useCases == Records(matches)
  {
    useCases := [];
    for k := 0 to |matches|
      invariant useCases == Records(matches[..k])
    {
      RecordsSnoc(matches, k);
      useCases := useCases + [ToUseCase(matches[k])];
    }
    assert matches[..|matches|] == matches;
  }

  /** The records of one more match are the records so far and the record of that match. */
  lemma RecordsSnoc(matches: seq<Match>, k: nat)
    requires k < |matches|
    ensures Records(matches[..k + 1]) == Records(matches[..k]) + [ToUseCase(matches[k])]
  {
    MapSnoc(ToUseCase, matches[..k], matches[k]);
    assert matches[..k + 1] == matches[..k] + [matches[k]];
  }

  // ---------------------------------------------------------------------------
  // What findall returns

  /** Every match the scan from i gives is the one recorded at its start, at or after i. */
  lemma {:induction false} SelectSound(t: seq<Option<Match>>, i: nat)
    requires MatchTable(t)
    ensures forall j :: 0 <= j < |Select(t, i)| ==>
              i <= Select(t, i)[j].start < |t| && t[Select(t, i)[j].start] == Some(Select(t, i)[j])
    decreases |t| - i
  {
    if i < |t| {
      match t[i]
      case Some(m) =>
        SelectSound(t, m.end);
        assert forall j :: 1 <= j < |Select(t, i)| ==> Select(t, i)[j] == Select(t, m.end)[j - 1];
      case None => SelectSound(t, i + 1);
    }
  }

  /** The matches of the scan do not overlap and stand in text order. */
  lemma {:induction false} SelectOrdered(t: seq<Option<Match>>, i: nat)
    requires MatchTable(t)
    ensures forall j :: 0 <= j < |Select(t, i)| - 1 ==> Select(t, i)[j].end <= Select(t, i)[j + 1].start
    decreases |t| - i
  {
    if i < |t| {
      match t[i]
      case Some(m) =>
        SelectOrdered(t, m.end);
        SelectSound(t, m.end);
        var r := Select(t, i);
        assert forall j :: 1 <= j < |r| ==> r[j] == Select(t, m.end)[j - 1];
      case None => SelectOrdered(t, i + 1);
    }
  }

  /** Nothing is missed: every match from i on lies within a match of the scan. */
  lemma {:induction false} SelectLeftmost(t: seq<Option<Match>>, i: nat, p: nat)
    requires MatchTable(t)
    requires i <= p < |t| && t[p].Some?
    ensures exists j :: 0 <= j < |Select(t, i)| && Select(t, i)[j].start <= p < Select(t, i)[j].end
    decreases |t| - i
  {
    var r := Select(t, i);
    match t[i]
    case Some(m) =>
      assert r[0] == m;
      if p >= m.end {
        SelectLeftmost(t, m.end, p);
        var j :| 0 <= j < |Select(t, m.end)| && Select(t, m.end)[j].start <= p < Select(t, m.end)[j].end;
        assert r[j + 1] == Select(t, m.end)[j];
      }
    case None =>
      SelectLeftmost(t, i + 1, p);
  }

  /** Indices where nothing matches are skipped. */
  lemma {:induction false} SelectSkip(t: seq<Option<Match>>, i: nat, k: nat)
    requires MatchTable(t) && i <= k
    requires forall j :: i <= j < k && j < |t| ==> t[j].None?
    ensures Select(t, i) == Select(t, k)
    decreases k - i
  {
    if i < k && i < |t| {
      SelectSkip(t, i + 1, k);
    }
  }

  /** Every match `findall` returns is the match of the pattern at its start. */
  lemma FindAllSound(s: string)
    ensures forall j :: 0 <= j < |FindAll(s)| ==> MatchAt(s, FindAll(s)[j].start) == Some(FindAll(s)[j])
  {
    var t := Table(s);
    var r := FindAll(s);
    SelectSound(t, 0);
    forall j | 0 <= j < |r|
      ensures MatchAt(s, r[j].start) == Some(r[j])
    {
      assert t[r[j].start] == Some(r[j]);
    }
  }

  /** The matches `findall` returns do not overlap and stand in text order. */
  lemma FindAllOrdered(s: string)
    ensures forall j :: 0 <= j < |FindAll(s)| - 1 ==> FindAll(s)[j].end <= FindAll(s)[j + 1].start
  {
    SelectOrdered(Table(s), 0);
  }

  /** `findall` misses nothing: every index where the pattern matches lies within a returned match. */
  lemma FindAllLeftmost(s: string, p: nat)
    requires p < |s| && MatchAt(s, p).Some?
    ensures exists j :: 0 <= j < |FindAll(s)| && FindAll(s)[j].start <= p < FindAll(s)[j].end
  {
    var t := Table(s);
    var r := FindAll(s);
    assert r == Select(t, 0);
    assert t[p].Some? by {
      assert t[p] == MatchAt(s, p);
    }
    SelectLeftmost(t, 0, p);
    var j :| 0 <= j < |r| && r[j].start <= p < r[j].end;
  }

  /** Where the pattern matches nowhere, `findall` returns nothing. */
  lemma FindAllNone(s: string)
    requires forall p :: 0 <= p < |s| ==> MatchAt(s, p).None?
    ensures FindAll(s) == []
  {
    var t := Table(s);
    forall j | 0 <= j < |t|
      ensures t[j].None?
    {
      assert t[j] == MatchAt(s, j);
    }
    SelectSkip(t, 0, |t|);
  }

  // ---------------------------------------------------------------------------
  // What a match holds

  /** No mark is set from k up to the first set one. */
  lemma {:induction false} FirstLeast(marks: seq<bool>, k: nat, j: nat)
    requires k <= j < |marks| && (First(marks, k).Some? ==> j < First(marks, k).value)
    ensures !marks[j]
    decreases j - k
  {
    if k < j {
      FirstLeast(marks, k + 1, j);
    }
  }

  /** A set mark with none set before it, from k on, is the first. */
  lemma {:induction false} FirstAt(marks: seq<bool>, k: nat, p: nat)
    requires k <= p < |marks| && marks[p]
    requires forall j :: k <= j < p ==> !marks[j]
    ensures First(marks, k) == Some(p)
    decreases p - k
  {
    if k < p {
      FirstAt(marks, k + 1, p);
    }
  }

  /** The lazy group 3 is as short as it can be: the application part matches nowhere before it stops. */
  lemma FirstTailLeast(s: string, k: nat, j: nat)
    requires k <= j && (FirstTail(s, k).Some? ==> j < FirstTail(s, k).value)
    ensures TailAt(s, j).None?
  {
    if j < |s| {
      FirstLeast(TailMarks(s), k, j);
    }
  }

  /** The lazy group 1 is as short as it can be: the part after the title matches nowhere before it stops. */
  lemma FirstRestLeast(s: string, k: nat, j: nat)
    requires k <= j && (FirstRest(s, k).Some? ==> j < FirstRest(s, k).value)
    ensures RestAt(s, j).None?
  {
    if j < |s| {
      FirstLeast(RestMarks(s), k, j);
    }
  }

  /** Group 3 stops at the first m from k on where the application part matches. */
  lemma FirstTailAt(s: string, k: nat, m: nat)
    requires k <= m && TailAt(s, m).Some?
    requires forall j :: k <= j < m ==> TailAt(s, j).None?
    ensures FirstTail(s, k) == Some(m)
  {
    var marks := TailMarks(s);
    forall j | k <= j < m
      ensures !marks[j]
    {
      assert marks[j] == TailAt(s, j).Some?;
    }
    FirstAt(marks, k, m);
  }

  /** Group 1 stops at the first p from k on where the part after the title matches. */
  lemma FirstRestAt(s: string, k: nat, p: nat)
    requires k <= p && RestAt(s, p).Some?
    requires forall j :: k <= j < p ==> RestAt(s, j).None?
    ensures FirstRest(s, k) == Some(p)
  {
    var marks := RestMarks(s);
    forall j | k <= j < p
      ensures !marks[j]
    {
      assert marks[j] == RestAt(s, j).Some?;
    }
    FirstAt(marks, k, p);
  }

  /** The application part of a match: its tag stands in the text, and group 5 runs to the next line break. */
  lemma TailParts(s: string, m: nat)
    requires TailAt(s, m).Some?
    ensures var r := TailAt(s, m).value;
      && (r.appLabel == ApplicationLabel || r.appLabel == ExamplesLabel)
      && Contains(s, Tag(r.appLabel))
      && r.appEnd == FindFrom(s, Newline, r.appStart)
  {
    var w := m + 1 + SpaceRun(s, m + 1);
    var l := LabelAt(s, w, ApplicationLabel, ExamplesLabel);
    assert OccursAt(s, Tag(l.name), w);
  }

  /** The part after the title: `**:` and a line break and an explanation tag stand in the text. */
  lemma RestParts(s: string, p: nat)
    requires RestAt(s, p).Some?
    ensures OccursAt(s, TitleEnd, p)
    ensures var r := RestAt(s, p).value;
      && (r.expLabel == ExplanationLabel || r.expLabel == DescriptionLabel)
      && Contains(s, Tag(r.expLabel))
      && TailAt(s, r.expEnd) == Some(r.tail)
  {
    RestFromParts(s, p + 4);
  }

  lemma RestFromParts(s: string, k: nat)
    requires k <= |s| && RestFrom(s, k).Some?
    ensures var r := RestFrom(s, k).value;
      && (r.expLabel == ExplanationLabel || r.expLabel == DescriptionLabel)
      && Contains(s, Tag(r.expLabel))
      && TailAt(s, r.expEnd) == Some(r.tail)
  {
    var w := k + SpaceRun(s, k);
    var l := LabelAt(s, w, ExplanationLabel, DescriptionLabel);
    assert OccursAt(s, Tag(l.name), w);
  }

  /** The pieces of a match, with the indices of groups 3 and 5. */
  lemma MatchParts(s: string, i: nat) returns (p: nat, r: Rest)
    requires MatchAt(s, i).Some?
    ensures OccursAt(s, "**", i) && RestAt(s, p) == Some(r)
    ensures var m := MatchAt(s, i).value;
      && m.expLabel == r.expLabel && m.explanation == s[r.expStart..r.expEnd]
      && m.appLabel == r.tail.appLabel && m.application == s[r.tail.appStart..r.tail.appEnd]
  {
    var t := HeaderEnd(s, i).value;
    p := FirstRest(s, t).value;
    r := RestAt(s, p).value;
  }

  /**
   * A match needs the title end `**:` and a line break, an explanation tag and an
   * application tag, and records which of the two labels of each kind it found.
   */
  lemma MatchNeedsTags(s: string, i: nat)
    requires MatchAt(s, i).Some?
    ensures var m := MatchAt(s, i).value;
      && Contains(s, TitleEnd)
      && (m.expLabel == ExplanationLabel || m.expLabel == DescriptionLabel) && Contains(s, Tag(m.expLabel))
      && (m.appLabel == ApplicationLabel || m.appLabel == ExamplesLabel) && Contains(s, Tag(m.appLabel))
  {
    var p, r := MatchParts(s, i);
    RestParts(s, p);
    TailParts(s, r.expEnd);
  }

  /** A reply lacking the title end, both explanation tags or both application tags gives no records. */
  lemma NoUseCasesWithoutTags(s: string)
    requires || !Contains(s, TitleEnd)
             || (!Contains(s, Tag(ExplanationLabel)) && !Contains(s, Tag(DescriptionLabel)))
             || (!Contains(s, Tag(ApplicationLabel)) && !Contains(s, Tag(ExamplesLabel)))
    ensures UseCasesOf(s) == []
  {
    forall p | 0 <= p < |s|
      ensures MatchAt(s, p).None?
    {
      if MatchAt(s, p).Some? {
        MatchNeedsTags(s, p);
      }
    }
    FindAllNone(s);
  }

  /** Group 5 holds no line break, so a record has at most one practical application. */
  lemma MatchOneApplication(s: string, i: nat)
    requires MatchAt(s, i).Some?
    ensures !Contains(MatchAt(s, i).value.application, Newline)
    ensures |ToUseCase(MatchAt(s, i).value).practicalApplication| <= 1
  {
    var p, r := MatchParts(s, i);
    RestParts(s, p);
    TailParts(s, r.expEnd);
    var a := r.tail.appStart;
    var e := r.tail.appEnd;
    var x := s[a..e];
    FindFromGap(s, Newline, a);
    if Contains(Strip(x), Newline) {
      StripContains(x, Newline);
    }
    OneLine(Strip(x));
  }

  /** Every record `parse_usecases` returns has at most one practical application. */
  lemma AtMostOneApplication(s: string)
    ensures forall j :: 0 <= j < |UseCasesOf(s)| ==> |UseCasesOf(s)[j].practicalApplication| <= 1
  {
    var ms := FindAll(s);
    FindAllSound(s);
    forall j | 0 <= j < |ms|
      ensures |UseCasesOf(s)[j].practicalApplication| <= 1
    {
      MatchOneApplication(s, ms[j].start);
    }
  }

  // ---------------------------------------------------------------------------
  // Replies written in the requested format are read back

  /** The header of the n-th entry: `**n. `. */
  function Header(n: nat): string
  {
    "**" + NatToString(n) + ". "
  }

  /** The practical application of a record as one line: the first one, or nothing. */
  function ApplicationText(u: UseCase): string
  {
    if u.practicalApplication == [] then "" else u.practicalApplication[0]
  }

  /** What follows the title of an entry: its end marker, the explanation line and the application line. */
  function EntryBody(u: UseCase): string
  {
    TitleEnd + Tag(ExplanationLabel) + (" " + u.explanation) + Newline
    + Tag(ApplicationLabel) + (" " + ApplicationText(u)) + Newline
  }

  /** The n-th entry of a reply written the way the pattern reads it, one line per part. */
  function Entry(n: nat, u: UseCase): string
  {
    Header(n) + u.title + EntryBody(u)
  }

  /** The texts f(n, xs[0]), f(n + 1, xs[1]), ... one after another. */
  function Joined<T>(f: (nat, T) -> string, xs: seq<T>, n: nat): string
    decreases |xs|
  {
    if xs == [] then "" else f(n, xs[0]) + Joined(f, xs[1..], n + 1)
  }

  /** The texts f(n, xs[0]), f(n + 1, xs[1]), ... stand in s one after another from k to its end. */
  predicate Placed<T>(f: (nat, T) -> string, s: string, k: nat, xs: seq<T>, n: nat)
    decreases |xs|
  {
    if xs == [] then k == |s|
    else OccursAt(s, f(n, xs[0]), k) && Placed(f, s, k + |f(n, xs[0])|, xs[1..], n + 1)
  }

  /** The joined texts, standing from k to the end of s, place each text after the one before. */
  lemma {:induction false} JoinedPlaced<T>(f: (nat, T) -> string, s: string, k: nat, xs: seq<T>, n: nat)
    requires OccursAt(s, Joined(f, xs, n), k) && k + |Joined(f, xs, n)| == |s|
    ensures Placed(f, s, k, xs, n)
    decreases |xs|
  {
    if xs != [] {
      OccursSplit(s, f(n, xs[0]), Joined(f, xs[1..], n + 1), k);
      JoinedPlaced(f, s, k + |f(n, xs[0])|, xs[1..], n + 1);
    }
  }

  /** The entries for the records, numbered from n. */
  function Entries(us: seq<UseCase>, n: nat): string
  {
    Joined(Entry, us, n)
  }

  /**
   * A record the format can carry: a stripped title without asterisks, a stripped
   * explanation on one line, and at most one practical application, itself on one line.
   */
  predicate Writable(u: UseCase)
  {
    && IsStripped(u.title) && !Contains(u.title, "*")
    && IsStripped(u.explanation) && !Contains(u.explanation, Newline)
    && |u.practicalApplication| <= 1
    && forall j :: 0 <= j < |u.practicalApplication| ==>
         u.practicalApplication[j] != "" && IsStripped(u.practicalApplication[j])
         && !Contains(u.practicalApplication[j], Newline)
  }

  /** The greedy digit run ends at the first non-digit. */
  lemma {:induction false} DigitRunOf(s: string, i: nat, j: nat)
    requires i <= j <= |s|
    requires forall k :: i <= k < j ==> IsDigit(s[k])
    requires j < |s| ==> !IsDigit(s[j])
    ensures DigitRun(s, i) == j - i
    decreases j - i
  {
    if i < j {
      DigitRunOf(s, i + 1, j);
    }
  }

  /** A header `**n. ` is read as one: the title starts right after it. */
  lemma HeaderEndOfHeader(s: string, i: nat, n: nat)
    requires OccursAt(s, Header(n), i)
    ensures HeaderEnd(s, i) == Some(i + |Header(n)|)
  {
    var d := NatToString(n);
    assert Header(n) == ("**" + d) + ". ";
    OccursSplit(s, "**" + d, ". ", i);
    OccursSplit(s, "**", d, i);
    forall k | i + 2 <= k < i + 2 + |d|
      ensures IsDigit(s[k])
    {
      assert s[(i + 2) + (k - i - 2)] == d[k - i - 2];
    }
    var j := i + 2 + |d|;
    assert s[j] == '.' by {
      assert s[j + 0] == ". "[0];
    }
    assert s[j + 1] == ' ' by {
      assert s[j + 1] == ". "[1];
    }
    DigitRunOf(s, i + 2, j);
  }

  /** A line of text without line breaks keeps that with a blank put before it. */
  lemma NoBreakAfterBlank(x: string)
    requires !Contains(x, Newline)
    ensures !Contains(" " + x, Newline)
  {
    var y := " " + x;
    forall k | 0 <= k <= |y| - |Newline|
      ensures !OccursAt(y, Newline, k)
    {
      assert Newline[0] == '\n';
      if k == 0 {
        assert y[k + 0] == ' ';
      } else {
        assert !OccursAt(x, Newline, k - 1);
        assert x[(k - 1) + 0] != Newline[0];
        assert y[k + 0] == x[(k - 1) + 0];
      }
    }
  }

  /** With no line break from q up to m, where the application part matches, the lazy group 3 stops at m. */
  lemma FirstTailPastBreaks(s: string, q: nat, m: nat)
    requires q <= m && TailAt(s, m).Some?
    requires forall j :: q <= j < m ==> s[j] != '\n'
    ensures FirstTail(s, q) == Some(m)
  {
    FirstTailAt(s, q, m);
  }

  /** With no line break from a up to e, where one stands, the next line break from a is at e. */
  lemma NextBreak(s: string, a: nat, e: nat)
    requires a <= e && OccursAt(s, Newline, e)
    requires forall j :: a <= j < e ==> s[j] != '\n'
    ensures FindFrom(s, Newline, a) == e
  {
    forall j | a <= j < e
      ensures !OccursAt(s, Newline, j)
    {
      assert s[j + 0] != Newline[0];
    }
    FindFromAt(s, Newline, a, e);
  }

  /** An application line: a line break, the application tag, the text x and a line break. */
  lemma TailOfLine(s: string, m: nat, x: string)
    requires OccursAt(s, Newline, m) && OccursAt(s, Tag(ApplicationLabel), m + 1)
    requires OccursAt(s, x, m + 1 + |Tag(ApplicationLabel)|)
    requires OccursAt(s, Newline, m + 1 + |Tag(ApplicationLabel)| + |x|)
    requires !Contains(x, Newline)
    ensures TailAt(s, m).Some?
    ensures var t := TailAt(s, m).value;
      && t.appLabel == ApplicationLabel && t.appStart == m + 1 + |Tag(ApplicationLabel)|
      && t.appEnd == m + 1 + |Tag(ApplicationLabel)| + |x|
  {
    var a := m + 1 + |Tag(ApplicationLabel)|;
    var e := a + |x|;
    assert s[m + 0] == Newline[0];
    assert s[(m + 1) + 0] == Tag(ApplicationLabel)[0] == '*';
    assert SpaceRun(s, m + 1) == 0;
    assert LabelAt(s, m + 1, ApplicationLabel, ExamplesLabel) == Tagged(ApplicationLabel, a);
    CharsOfOccurrence(s, x, a, '\n');
    NextBreak(s, a, e);
  }

  /** The explanation line: the tag, then text without a line break up to the application line. */
  lemma RestFromOfBody(s: string, k: nat, x: string, m: nat)
    requires OccursAt(s, Tag(ExplanationLabel), k) && OccursAt(s, x, k + |Tag(ExplanationLabel)|)
    requires !Contains(x, Newline) && m == k + |Tag(ExplanationLabel)| + |x|
    requires TailAt(s, m).Some?
    ensures k <= |s| && RestFrom(s, k).Some?
    ensures var r := RestFrom(s, k).value;
      && r.expLabel == ExplanationLabel && r.expStart == k + |Tag(ExplanationLabel)| && r.expEnd == m
      && r.tail == TailAt(s, m).value
  {
    var q := k + |Tag(ExplanationLabel)|;
    assert s[k + 0] == Tag(ExplanationLabel)[0] == '*';
    assert SpaceRun(s, k) == 0;
    assert LabelAt(s, k, ExplanationLabel, DescriptionLabel) == Tagged(ExplanationLabel, q);
    CharsOfOccurrence(s, x, q, '\n');
    FirstTailPastBreaks(s, q, m);
  }

  /**
   * The part of an entry after its title, laid out piece by piece, is read as the rest of a
   * match: explanation x and application y, each on one line.
   */
  lemma RestOfPieces(s: string, p: nat, x: string, y: string)
    requires !Contains(x, Newline) && !Contains(y, Newline)
    requires var q := p + 4 + |Tag(ExplanationLabel)|;
      var m := q + 1 + |x|;
      var a := m + 1 + |Tag(ApplicationLabel)|;
      && OccursAt(s, TitleEnd, p) && OccursAt(s, Tag(ExplanationLabel), p + 4)
      && OccursAt(s, " " + x, q) && OccursAt(s, Newline, m)
      && OccursAt(s, Tag(ApplicationLabel), m + 1) && OccursAt(s, " " + y, a)
      && OccursAt(s, Newline, a + 1 + |y|)
    ensures RestAt(s, p).Some?
    ensures var q := p + 4 + |Tag(ExplanationLabel)|;
      var m := q + 1 + |x|;
      var a := m + 1 + |Tag(ApplicationLabel)|;
      var r := RestAt(s, p).value;
      && r.expLabel == ExplanationLabel && r.expStart == q && r.expEnd == m
      && r.tail.appLabel == ApplicationLabel && r.tail.appStart == a && r.tail.appEnd == a + 1 + |y|
  {
    var x2 := " " + x;
    var x5 := " " + y;
    NoBreakAfterBlank(x);
    NoBreakAfterBlank(y);
    var q := p + 4 + |Tag(ExplanationLabel)|;
    var m := q + |x2|;
    var a := m + 1 + |Tag(ApplicationLabel)|;
    TailOfLine(s, m, x5);
    RestFromOfBody(s, p + 4, x2, m);
    RestAtTitleEnd(s, p);
  }

  /** The part of an entry after its title is read as the rest of a match. */
  lemma RestOfBody(s: string, p: nat, u: UseCase)
    requires !Contains(u.explanation, Newline) && !Contains(ApplicationText(u), Newline)
    requires OccursAt(s, EntryBody(u), p)
    ensures RestAt(s, p).Some?
    ensures var r := RestAt(s, p).value;
      && r.expLabel == ExplanationLabel && r.tail.appLabel == ApplicationLabel
      && r.expStart <= r.expEnd <= r.tail.appStart <= r.tail.appEnd
      && s[r.expStart..r.expEnd] == " " + u.explanation && s[r.tail.appStart..r.tail.appEnd] == " " + ApplicationText(u)
      && r.tail.appEnd + 1 == p + |EntryBody(u)|
  {
    BodyPieces(s, p, u);
    RestOfPieces(s, p, u.explanation, ApplicationText(u));
    var q := p + 4 + |Tag(ExplanationLabel)|;
    var a := q + 1 + |u.explanation| + 1 + |Tag(ApplicationLabel)|;
    SliceAtOccurrence(s, " " + u.explanation, q);
    SliceAtOccurrence(s, " " + ApplicationText(u), a);
  }

  /** After the title end, the rest of a match is read from the next line on. */
  lemma RestAtTitleEnd(s: string, p: nat)
    requires OccursAt(s, TitleEnd, p)
    ensures RestAt(s, p) == RestFrom(s, p + 4)
  {
  }

  /** The pieces of an entry body, each at its place. */
  lemma BodyPieces(s: string, p: nat, u: UseCase)
    requires OccursAt(s, EntryBody(u), p)
    ensures var q := p + 4 + |Tag(ExplanationLabel)|;
      var m := q + 1 + |u.explanation|;
      var a := m + 1 + |Tag(ApplicationLabel)|;
      && OccursAt(s, TitleEnd, p) && OccursAt(s, Tag(ExplanationLabel), p + 4)
      && OccursAt(s, " " + u.explanation, q) && OccursAt(s, Newline, m)
      && OccursAt(s, Tag(ApplicationLabel), m + 1) && OccursAt(s, " " + ApplicationText(u), a)
      && OccursAt(s, Newline, a + 1 + |ApplicationText(u)|)
      && |EntryBody(u)| == a + 2 + |ApplicationText(u)| - p
  {
    var x2 := " " + u.explanation;
    var x5 := " " + ApplicationText(u);
    var b1 := TitleEnd + Tag(ExplanationLabel);
    var b2 := b1 + x2;
    var b3 := b2 + Newline;
    var b4 := b3 + Tag(ApplicationLabel);
    var b5 := b4 + x5;
    assert EntryBody(u) == b5 + Newline;
    OccursSplit(s, b5, Newline, p);
    OccursSplit(s, b4, x5, p);
    OccursSplit(s, b3, Tag(ApplicationLabel), p);
    OccursSplit(s, b2, Newline, p);
    OccursSplit(s, b1, x2, p);
    OccursSplit(s, TitleEnd, Tag(ExplanationLabel), p);
  }

  /** With no asterisk from t up to p, where the rest matches, the lazy group 1 stops at p. */
  lemma FirstRestPastStars(s: string, t: nat, p: nat)
    requires t <= p && RestAt(s, p).Some?
    requires forall j :: t <= j < p ==> s[j] != '*'
    ensures FirstRest(s, t) == Some(p)
  {
    forall j | t <= j < p
      ensures RestAt(s, j).None?
    {
      assert s[j + 0] != TitleEnd[0];
    }
    FirstRestAt(s, t, p);
  }

  /** The match at i once its header ends at t and the lazy group 1 stops at p. */
  lemma MatchAtOf(s: string, i: nat, t: nat, p: nat)
    requires i <= |s| && HeaderEnd(s, i) == Some(t) && FirstRest(s, t) == Some(p)
    ensures MatchAt(s, i).Some?
    ensures var mm := MatchAt(s, i).value;
      var r := RestAt(s, p).value;
      && mm.end == r.tail.appEnd + 1 && mm.title == s[t..p]
      && mm.expLabel == r.expLabel && mm.explanation == s[r.expStart..r.expEnd]
      && mm.appLabel == r.tail.appLabel && mm.application == s[r.tail.appStart..r.tail.appEnd]
  {
  }

  /** The header, the title and the body of an entry, each at its place. */
  lemma EntryPieces(s: string, i: nat, h: string, u: UseCase)
    requires OccursAt(s, h + u.title + EntryBody(u), i)
    ensures OccursAt(s, u.title, i + |h|)
    ensures OccursAt(s, EntryBody(u), i + |h| + |u.title|)
  {
    OccursSplit(s, h + u.title, EntryBody(u), i);
    OccursSplit(s, h, u.title, i);
  }

  /**
   * An entry in the requested format, whose header h is read as one, is matched in full
   * at its header, with its parts as the groups.
   */
  lemma EntryMatch(s: string, i: nat, h: string, u: UseCase)
    requires Writable(u) && OccursAt(s, h + u.title + EntryBody(u), i) && HeaderEnd(s, i) == Some(i + |h|)
    ensures MatchAt(s, i).Some?
    ensures var mm := MatchAt(s, i).value;
      && mm.end == i + |h| + |u.title| + |EntryBody(u)| && mm.title == u.title
      && mm.expLabel == ExplanationLabel && mm.explanation == " " + u.explanation
      && mm.appLabel == ApplicationLabel && mm.application == " " + ApplicationText(u)
  {
    EntryPieces(s, i, h, u);
    assert !Contains(ApplicationText(u), Newline);
    TitleThenBody(s, i, i + |h|, u);
  }

  /** The rest read at p has the explanation and application labels and groups, and ends just before e. */
  predicate RestReads(s: string, p: nat, explanation: string, application: string, e: nat)
  {
    && RestAt(s, p).Some?
    && var r := RestAt(s, p).value;
    && r.expLabel == ExplanationLabel && r.tail.appLabel == ApplicationLabel
    && s[r.expStart..r.expEnd] == explanation && s[r.tail.appStart..r.tail.appEnd] == application
    && r.tail.appEnd + 1 == e
  }

  /**
   * A header read from i to t, then a title without '*' and a body in the requested format:
   * group 1 stops at the body, whose rest holds the explanation and the application, so the
   * match at i has them as its groups.
   */
  lemma TitleThenBody(s: string, i: nat, t: nat, u: UseCase)
    requires i <= |s| && HeaderEnd(s, i) == Some(t)
    requires !Contains(u.title, "*") && !Contains(u.explanation, Newline) && !Contains(ApplicationText(u), Newline)
    requires OccursAt(s, u.title, t) && OccursAt(s, EntryBody(u), t + |u.title|)
    ensures MatchAt(s, i).Some?
    ensures var mm := MatchAt(s, i).value;
      && mm.end == t + |u.title| + |EntryBody(u)| && mm.title == u.title
      && mm.expLabel == ExplanationLabel && mm.explanation == " " + u.explanation
      && mm.appLabel == ApplicationLabel && mm.application == " " + ApplicationText(u)
  {
    var p := t + |u.title|;
    CharsOfOccurrence(s, u.title, t, '*');
    RestOfBody(s, p, u);
    FirstRestPastStars(s, t, p);
    SliceAtOccurrence(s, u.title, t);
    MatchOfRest(s, i, t, p, u.title, " " + u.explanation, " " + ApplicationText(u), p + |EntryBody(u)|);
  }

  /** The groups of the match at i, given the header end t, the stop p of group 1 and the rest read at p. */
  lemma MatchOfRest(s: string, i: nat, t: nat, p: nat, title: string, explanation: string, application: string, e: nat)
    requires i <= |s| && HeaderEnd(s, i) == Some(t) && FirstRest(s, t) == Some(p)
    requires p <= |s| && s[t..p] == title && RestReads(s, p, explanation, application, e)
    ensures MatchAt(s, i).Some?
    ensures var mm := MatchAt(s, i).value;
      && mm.end == e && mm.title == title
      && mm.expLabel == ExplanationLabel && mm.explanation == explanation
      && mm.appLabel == ApplicationLabel && mm.application == application
  {
    MatchAtOf(s, i, t, p);
  }

  /** The record of an entry in the requested format is the record it was written from. */
  lemma EntryRecord(u: UseCase, m: Match)
    requires Writable(u)
    requires m.title == u.title && m.explanation == " " + u.explanation && m.application == " " + ApplicationText(u)
    ensures ToUseCase(m) == u
  {
    var x := ApplicationText(u);
    StripStripped(u.title);
    StripLeadingSpace(u.explanation);
    StripStripped(u.explanation);
    StripLeadingSpace(x);
    StripStripped(x);
    OneLine(x);
    if u.practicalApplication == [] {
      assert x == "";
    } else {
      assert u.practicalApplication == [x];
    }
  }

  /** A match at i is the first of the scan from i, which goes on where it ends. */
  lemma SelectStep(t: seq<Option<Match>>, i: nat)
    requires MatchTable(t) && i < |t| && t[i].Some?
    ensures Select(t, i) == [t[i].value] + Select(t, t[i].value.end)
  {
  }

  /** The n-th entry, at i, gives the match of the scan there: its record is u and it ends where the entry does. */
  lemma EntryScanned(s: string, i: nat, n: nat, u: UseCase)
    requires Writable(u) && OccursAt(s, Entry(n, u), i)
    ensures i < |s| && Table(s)[i].Some?
    ensures Table(s)[i].value.end == i + |Entry(n, u)| && ToUseCase(Table(s)[i].value) == u
  {
    var h := Header(n);
    assert Entry(n, u) == h + u.title + EntryBody(u);
    OccursSplit(s, h + u.title, EntryBody(u), i);
    OccursSplit(s, h, u.title, i);
    HeaderEndOfHeader(s, i, n);
    EntryMatch(s, i, h, u);
    EntryRecord(u, MatchAt(s, i).value);
  }

  /** From k on, t holds a match with record us[0], then from its end on matches with records us[1..], and nothing after. */
  predicate Scans(t: seq<Option<Match>>, k: nat, us: seq<UseCase>)
    decreases |us|
  {
    if us == [] then k == |t|
    else k < |t| && t[k].Some? && ToUseCase(t[k].value) == us[0] && Scans(t, t[k].value.end, us[1..])
  }

  /** Matches chained as Scans says are what the scan from k finds, with those records. */
  lemma {:induction false} ScansRecords(t: seq<Option<Match>>, k: nat, us: seq<UseCase>)
    requires MatchTable(t) && Scans(t, k, us)
    ensures Records(Select(t, k)) == us
    decreases |us|
  {
    if us != [] {
      ScansRecords(t, t[k].value.end, us[1..]);
      RecordsStep(t, k, us);
    }
  }

  /** Entries in the requested format placed from k to the end of s chain their matches, one per entry. */
  lemma {:induction false} ScanEntries(s: string, k: nat, us: seq<UseCase>, n: nat)
    requires forall j :: 0 <= j < |us| ==> Writable(us[j])
    requires Placed(Entry, s, k, us, n)
    ensures Scans(Table(s), k, us)
    decreases |us|
  {
    if us == [] {
      assert k == |Table(s)|;
    } else {
      var k2 := PlacedStep(Entry, s, k, us, n);
      assert forall j :: 0 <= j < |us[1..]| ==> Writable(us[1..][j]) by {
        forall j | 0 <= j < |us[1..]|
          ensures Writable(us[1..][j])
        {
          assert us[1..][j] == us[j + 1];
        }
      }
      ScanEntries(s, k2, us[1..], n + 1);
      ScanStep(s, k, k2, us, n);
    }
  }

  /** Placed texts: the first stands at k, the others from where it ends. */
  lemma PlacedStep<T>(f: (nat, T) -> string, s: string, k: nat, xs: seq<T>, n: nat) returns (k2: nat)
    requires Placed(f, s, k, xs, n) && xs != []
    ensures k2 == k + |f(n, xs[0])| && OccursAt(s, f(n, xs[0]), k) && Placed(f, s, k2, xs[1..], n + 1)
  {
    k2 := k + |f(n, xs[0])|;
  }

  /** An entry at k, followed from k2 on by matches chained for the next records, chains the matches for all. */
  lemma ScanStep(s: string, k: nat, k2: nat, us: seq<UseCase>, n: nat)
    requires us != [] && Writable(us[0])
    requires k2 == k + |Entry(n, us[0])| && OccursAt(s, Entry(n, us[0]), k)
    requires Scans(Table(s), k2, us[1..])
    ensures Scans(Table(s), k, us)
  {
    EntryScanned(s, k, n, us[0]);
    ScansCons(Table(s), k, k2, us);
  }

  /** A match at k with record us[0] that ends at k2, where matches for us[1..] are chained, chains the matches for us. */
  lemma ScansCons(t: seq<Option<Match>>, k: nat, k2: nat, us: seq<UseCase>)
    requires us != [] && k < |t| && t[k].Some? && t[k].value.end == k2 && ToUseCase(t[k].value) == us[0]
    requires Scans(t, k2, us[1..])
    ensures Scans(t, k, us)
  {
  }

  /** A match with record us[0], then matches with records us[1..], give the records us. */
  lemma RecordsStep(t: seq<Option<Match>>, k: nat, us: seq<UseCase>)
    requires MatchTable(t) && k < |t| && t[k].Some? && us != []
    requires ToUseCase(t[k].value) == us[0] && Records(Select(t, t[k].value.end)) == us[1..]
    ensures Records(Select(t, k)) == us
  {
    SelectStep(t, k);
    MapCons(ToUseCase, t[k].value, Select(t, t[k].value.end));
    assert us == [us[0]] + us[1..];
  }

  /** Where no asterisk stands, no header starts, so nothing matches. */
  lemma NoMatchWithoutStars(s: string, k: nat)
    requires k <= |s| && forall j :: 0 <= j < k ==> s[j] != '*'
    ensures forall j :: 0 <= j < k ==> Table(s)[j].None?
  {
    forall j | 0 <= j < k
      ensures Table(s)[j].None?
    {
      assert s[j + 0] != "**"[0];
      assert Table(s)[j] == MatchAt(s, j);
    }
  }

  /**
   * A reply made of an introduction without asterisks and then entries in the requested
   * format, numbered from 1, gives back exactly the records the entries were written from.
   */
  lemma ParseEntries(intro: string, us: seq<UseCase>)
    requires !Contains(intro, "*")
    requires forall j :: 0 <= j < |us| ==> Writable(us[j])
    ensures UseCasesOf(intro + Entries(us, 1)) == us
  {
    var s := intro + Entries(us, 1);
    var t := Table(s);
    forall j | 0 <= j < |intro|
      ensures s[j] != '*'
    {
      assert s[j] == intro[j];
      assert !OccursAt(intro, "*", j);
      assert intro[j + 0] != "*"[0];
    }
    NoMatchWithoutStars(s, |intro|);
    SelectSkip(t, 0, |intro|);
    assert OccursAt(s, Entries(us, 1), |intro|) by {
      assert s == intro + Entries(us, 1) + "";
      OccursInMiddle(intro, Entries(us, 1), "");
    }
    JoinedPlaced(Entry, s, |intro|, us, 1);
    ScanEntries(s, |intro|, us, 1);
    ScansRecords(t, |intro|, us);
    assert FindAll(s) == Select(t, |intro|);
  }
}
