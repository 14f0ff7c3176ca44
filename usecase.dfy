/**
 * The text handling of the use-case generator (research_agent/usecase.py): the reply of
 * the model turned into a list of clean lines, and `format_use_cases`, which renumbers
 * the items of a "1. "-separated reply as markdown sections.
 * The model request is an input: the reply it gave, or `None`.
 */
module UseCaseFormat {
  import opened Wrappers
  import opened Strings
  import Research

  // ---------------------------------------------------------------------------
  // generate_use_cases, after the query

  const NoUseCases := "No use cases could be generated."

  lemma NoUseCasesIsClean()
    ensures NoUseCases != "" && IsStripped(NoUseCases) && !Contains(NoUseCases, Newline)
  {
    forall i | 0 <= i <= |NoUseCases| - 1
      ensures !OccursAt(NoUseCases, Newline, i)
    {
      assert NoUseCases[i + 0] != Newline[0];
    }
  }

  /**
   * The list `generate_use_cases` returns for the reply of the query: a reply that is a
   * non-empty string gives its lines, stripped, blank ones dropped and order kept;
   * a missing or empty reply gives the single fallback line. Every line of the result
   * is non-empty and stripped.
   */
  function UseCaseLines(reply: Option<string>): (r: seq<string>)
    ensures !Research.Truthy(reply) ==> r == [NoUseCases]
    ensures forall i :: 0 <= i < |r| ==> r[i] != "" && IsStripped(r[i])
  {
    if Research.Truthy(reply) then StrippedLines(reply.value)
    else
      NoUseCasesIsClean();
      [NoUseCases]
  }

  /** No use case holds a line break. */
  lemma UseCaseLinesNoBreak(reply: Option<string>)
    ensures forall i :: 0 <= i < |UseCaseLines(reply)| ==> !Contains(UseCaseLines(reply)[i], Newline)
  {
    if Research.Truthy(reply) {
      StrippedLinesNoBreak(reply.value);
    } else {
      NoUseCasesIsClean();
    }
  }

  /**
   * `generate_use_cases` from the Forefront key and the reply the request gave:
   * the query raises when the key is missing, and otherwise the reply becomes lines.
   */
  function GenerateUseCases(forefrontKey: Option<string>, reply: Option<string>): (r: Result<seq<string>, Error>)
    ensures !Research.Truthy(forefrontKey) <==> r == Failure(ValueError(Research.ForefrontKeyMissing))
    ensures r.Success? ==> r.value == UseCaseLines(reply)
  {
    match Research.QueryForefront(forefrontKey, reply)
    case Failure(e) => Failure(e)
    case Success(response) => Success(UseCaseLines(response))
  }

  /** A non-empty reply is filtered line by line. */
  lemma UseCaseLinesOfText(s: string)
    requires s != ""
    ensures UseCaseLines(Some(s)) == StrippedLines(s)
  {
    assert Research.Truthy(Some(s));
  }

  /** Clean lines sent back joined by line breaks are returned as they were, one per line. */
  lemma UseCaseLinesOfJoin(lines: seq<string>)
    requires lines != []
    requires forall i :: 0 <= i < |lines| ==> lines[i] != "" && IsStripped(lines[i]) && !Contains(lines[i], Newline)
    ensures UseCaseLines(Some(Join(lines, Newline))) == lines
  {
    LinesOfJoin(lines);
    JoinedLinesFiltered(lines);
  }

  /** Lines joined by line breaks, the first non-empty, go through the line filter. */
  lemma JoinedLinesFiltered(lines: seq<string>)
    requires lines != [] && lines[0] != ""
    ensures UseCaseLines(Some(Join(lines, Newline))) == StrippedLines(Join(lines, Newline))
  {
    JoinStartsWithFirst(lines, Newline);
    UseCaseLinesOfText(Join(lines, Newline));
  }

  /** The line filter works line by line, so the lines of two replies glued at a line break concatenate. */
  lemma UseCaseLinesOfTwoParts(a: string, b: string)
    requires a != ""
    ensures UseCaseLines(Some(a + Newline + b)) == StrippedLines(a) + StrippedLines(b)
  {
    assert NoSelfOverlap(Newline);
    SplitConcat(a, b, Newline);
    StripAllAppend(Split(a, Newline), Split(b, Newline));
  }

  // ---------------------------------------------------------------------------
  // format_use_cases

  const Marker := "1. "
  const Divider := "\n\n---\n\n"

  lemma MarkerNoSelfOverlap()
    ensures NoSelfOverlap(Marker)
  {
    assert Marker[1..][0] != Marker[..2][0];
    assert Marker[2..][0] != Marker[..1][0];
  }

  /** The heading of the n-th section: "#### n. ". */
  function Heading(n: nat): string
  {
    "#### " + NatToString(n) + ". "
  }

  /** The n-th section: its heading, then the stripped item. */
  function Section(n: nat, item: string): string
  {
    Heading(n) + Strip(item)
  }

  /** The sections for the items, numbered from 1. */
  function Sections(items: seq<string>): seq<string>
  {
    seq(|items|, i requires 0 <= i < |items| => Section(i + 1, items[i]))
  }

  /**
   * The text `format_use_cases` returns: the pieces of the reply split at "1. ", the
   * first one dropped, the rest renumbered as sections and joined with a rule.
   */
  function FormattedUseCases(raw: string): string
  {
    Join(Sections(Split(raw, Marker)[1..]), Divider)
  }

  /** `format_use_cases`: the `enumerate(use_cases[1:], start=1)` loop appending sections. */
  method FormatUseCases(raw: string) returns (text: string)
    ensures text == FormattedUseCases(raw)
  {
    var useCases := Split(raw, Marker);
    var formatted: seq<string> := [];
    for k := 1 to |useCases|
      invariant formatted == Sections(useCases[1..k])
    {
      SectionsSnoc(useCases[1..k], useCases[k]);
      assert useCases[1..k + 1] == useCases[1..k] + [useCases[k]];
      formatted := formatted + [Section(k, useCases[k])];
    }
    assert useCases[1..|useCases|] == useCases[1..];
    text := Join(formatted, Divider);
  }

  lemma SectionsSnoc(items: seq<string>, item: string)
    ensures Sections(items + [item]) == Sections(items) + [Section(|items| + 1, item)]
  {
  }

  /** A reply without "1. " gives the empty text. */
  lemma NoMarkerNoSections(raw: string)
    requires !Contains(raw, Marker)
    ensures FormattedUseCases(raw) == ""
  {
    assert Split(raw, Marker) == [raw];
  }

  /** Whatever stands before the first "1. " is discarded. */
  lemma IntroDiscarded(intro: string, rest: string)
    requires !Contains(intro, Marker)
    ensures FormattedUseCases(intro + Marker + rest) == FormattedUseCases(Marker + rest)
  {
    MarkerNoSelfOverlap();
    var s := intro + Marker + rest;
    FindAfterPiece(intro, Marker, rest);
    assert s[|intro| + |Marker|..] == rest;
    assert Split(s, Marker)[1..] == Split(rest, Marker);
    assert !Contains("", Marker);
    FindAfterPiece("", Marker, rest);
    assert "" + Marker + rest == Marker + rest;
    assert (Marker + rest)[|Marker|..] == rest;
    assert Split(Marker + rest, Marker)[1..] == Split(rest, Marker);
  }

  /**
   * Items written after an introduction, each introduced by "1. ", come back as
   * consecutively numbered sections, when the items are stripped and none holds "1. ".
   */
  lemma ItemsRenumbered(intro: string, items: seq<string>)
    requires !Contains(intro, Marker)
    requires forall i :: 0 <= i < |items| ==> IsStripped(items[i]) && !Contains(items[i], Marker)
    ensures FormattedUseCases(Join([intro] + items, Marker))
         == Join(seq(|items|, i requires 0 <= i < |items| => Heading(i + 1) + items[i]), Divider)
  {
    MarkerNoSelfOverlap();
    var xs := [intro] + items;
    forall i | 0 <= i < |xs|
      ensures !Contains(xs[i], Marker)
    {
      if i > 0 {
        assert xs[i] == items[i - 1];
      }
    }
    SplitJoin(xs, Marker);
    assert xs[1..] == items;
    SectionsOfStripped(items);
  }

  lemma SectionsOfStripped(items: seq<string>)
    requires forall i :: 0 <= i < |items| ==> IsStripped(items[i])
    ensures Sections(items) == seq(|items|, i requires 0 <= i < |items| => Heading(i + 1) + items[i])
  {
    forall i | 0 <= i < |items|
      ensures Strip(items[i]) == items[i]
    {
      StripStripped(items[i]);
    }
  }
}
