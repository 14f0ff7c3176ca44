/**
 * What `parse_usecases` (research_agent/usecase_main.py) makes of a reply in which an entry
 * lacks its application line: the lazy explanation group does not stop at the end of that
 * entry but runs on to the next application line, so the two entries become one record.
 */
module UseCaseMerge {
  import opened Wrappers
  import opened Strings
  import opened UseCaseParser

  /** What follows the title of an entry whose application line is missing: the end marker and the explanation line. */
  function UnfinishedBody(u: UseCase): string
  {
    TitleEnd + Tag(ExplanationLabel) + (" " + u.explanation) + Newline
  }

  /** The n-th entry with its application line left out. */
  function Unfinished(n: nat, u: UseCase): string
  {
    Header(n) + u.title + UnfinishedBody(u)
  }

  /** The pieces of an entry without its application line, each at its place. */
  lemma UnfinishedPieces(s: string, i: nat, n: nat, u: UseCase)
    requires OccursAt(s, Unfinished(n, u), i)
    ensures var t := i + |Header(n)|;
      var p := t + |u.title|;
      var q := p + 4 + |Tag(ExplanationLabel)|;
      && OccursAt(s, Header(n), i) && OccursAt(s, u.title, t)
      && OccursAt(s, TitleEnd, p) && OccursAt(s, Tag(ExplanationLabel), p + 4)
      && OccursAt(s, " " + u.explanation, q) && OccursAt(s, Newline, q + 1 + |u.explanation|)
      && |Unfinished(n, u)| == q + 2 + |u.explanation| - i
  {
    var h := Header(n);
    var b1 := TitleEnd + Tag(ExplanationLabel);
    var b2 := b1 + (" " + u.explanation);
    assert UnfinishedBody(u) == b2 + Newline;
    OccursSplit(s, h + u.title, UnfinishedBody(u), i);
    OccursSplit(s, h, u.title, i);
    var p := i + |h| + |u.title|;
    OccursSplit(s, b2, Newline, p);
    OccursSplit(s, b1, " " + u.explanation, p);
    OccursSplit(s, TitleEnd, Tag(ExplanationLabel), p);
  }

  /** Text without a line break holds no position where the application part matches. */
  lemma NoTailInLine(s: string, k: nat, x: string)
    requires OccursAt(s, x, k) && !Contains(x, Newline)
    ensures forall j :: k <= j < k + |x| ==> TailAt(s, j).None?
  {
    CharsOfOccurrence(s, x, k, '\n');
  }

  /** A line break followed by a bold marker that opens neither application tag is not the application part. */
  lemma NoTailAtBreak(s: string, m: nat)
    requires m + 6 <= |s| && s[m] == '\n' && s[m + 1] == '*'
    requires s[m + 3] != 'P' && (s[m + 3] != 'E' || s[m + 5] != 'a')
    ensures TailAt(s, m).None?
  {
    assert SpaceRun(s, m + 1) == 0;
    assert !OccursAt(s, Tag(ApplicationLabel), m + 1) by {
      assert Tag(ApplicationLabel)[2] == 'P';
      assert s[(m + 1) + 2] == s[m + 3];
    }
    assert !OccursAt(s, Tag(ExamplesLabel), m + 1) by {
      assert Tag(ExamplesLabel)[2] == 'E' && Tag(ExamplesLabel)[4] == 'a';
      assert s[(m + 1) + 2] == s[m + 3] && s[(m + 1) + 4] == s[m + 5];
    }
  }

  /**
   * An explanation tag at k, then no position where the application part matches before m,
   * where it does: group 3 runs from the tag to m.
   */
  lemma RestFromTagged(s: string, k: nat, m: nat)
    requires OccursAt(s, Tag(ExplanationLabel), k) && k + |Tag(ExplanationLabel)| <= m
    requires TailAt(s, m).Some?
    requires forall j :: k + |Tag(ExplanationLabel)| <= j < m ==> TailAt(s, j).None?
    ensures k <= |s| && RestFrom(s, k).Some?
    ensures var r := RestFrom(s, k).value;
      && r.expLabel == ExplanationLabel && r.expStart == k + |Tag(ExplanationLabel)| && r.expEnd == m
      && r.tail == TailAt(s, m).value
  {
    var q := k + |Tag(ExplanationLabel)|;
    assert s[k + 0] == Tag(ExplanationLabel)[0] == '*';
    assert SpaceRun(s, k) == 0;
    assert LabelAt(s, k, ExplanationLabel, DescriptionLabel) == Tagged(ExplanationLabel, q);
    FirstTailAt(s, q, m);
  }

  /** The header `**2. ` holds no line break. */
  lemma SecondHeaderLine()
    ensures Header(2) == "**2. " && !Contains(Header(2), Newline)
  {
    assert Header(2) == "**2. ";
    forall i | 0 <= i <= |Header(2)| - |Newline|
      ensures !OccursAt(Header(2), Newline, i)
    {
      assert Newline[0] == '\n';
      assert Header(2)[i + 0] != '\n';
    }
  }

  /**
   * A line break, then the second header and a title on one line: the application part
   * matches nowhere from the break to the end of the title.
   */
  lemma NoTailInSecondHead(s: string, e: nat, title: string)
    requires 0 < e && OccursAt(s, Header(2), e) && s[e - 1] == '\n' && OccursAt(s, title, e + |Header(2)|)
    requires !Contains(title, Newline)
    ensures forall j :: e - 1 <= j < e + |Header(2)| + |title| ==> TailAt(s, j).None?
  {
    SecondHeaderLine();
    assert s[e + 0] == Header(2)[0] && s[e + 2] == Header(2)[2];
    NoTailAtBreak(s, e - 1);
    NoTailInLine(s, e, Header(2));
    NoTailInLine(s, e + |Header(2)|, title);
  }

  /**
   * The title end and the explanation tag of the second entry: the application part matches
   * nowhere in them, the line break of the title end included.
   */
  lemma NoTailInSecondTag(s: string, pv: nat)
    requires OccursAt(s, TitleEnd, pv) && OccursAt(s, Tag(ExplanationLabel), pv + 4)
    ensures forall j :: pv <= j < pv + 4 + |Tag(ExplanationLabel)| ==> TailAt(s, j).None?
  {
    forall j | pv <= j < pv + 3
      ensures TailAt(s, j).None?
    {
      assert s[pv + (j - pv)] == TitleEnd[j - pv];
    }
    assert s[pv + 3] == TitleEnd[3];
    assert s[(pv + 4) + 0] == Tag(ExplanationLabel)[0];
    assert s[(pv + 4) + 2] == Tag(ExplanationLabel)[2];
    assert s[(pv + 4) + 4] == Tag(ExplanationLabel)[4];
    NoTailAtBreak(s, pv + 3);
    forall j | pv + 4 <= j < pv + 4 + |Tag(ExplanationLabel)|
      ensures TailAt(s, j).None?
    {
      assert s[(pv + 4) + (j - pv - 4)] == Tag(ExplanationLabel)[j - pv - 4];
    }
  }

  /** Where the explanation of the second entry ends: the break before its application line. */
  function SecondBreak(e: nat, v: UseCase): nat
  {
    e + |Header(2)| + |v.title| + 4 + |Tag(ExplanationLabel)| + 1 + |v.explanation|
  }

  /** The pieces of the second entry, each at its place. */
  lemma SecondPieces(s: string, e: nat, v: UseCase)
    requires OccursAt(s, Entry(2, v), e)
    ensures var pv := e + |Header(2)| + |v.title|;
      var m2 := SecondBreak(e, v);
      && OccursAt(s, Header(2), e) && OccursAt(s, v.title, e + |Header(2)|)
      && OccursAt(s, TitleEnd, pv) && OccursAt(s, Tag(ExplanationLabel), pv + 4)
      && OccursAt(s, " " + v.explanation, pv + 4 + |Tag(ExplanationLabel)|) && OccursAt(s, Newline, m2)
      && OccursAt(s, Tag(ApplicationLabel), m2 + 1) && OccursAt(s, " " + ApplicationText(v), m2 + 1 + |Tag(ApplicationLabel)|)
      && OccursAt(s, Newline, m2 + 2 + |Tag(ApplicationLabel)| + |ApplicationText(v)|)
      && e + |Entry(2, v)| == m2 + 3 + |Tag(ApplicationLabel)| + |ApplicationText(v)|
  {
    var h2 := Header(2);
    assert Entry(2, v) == h2 + v.title + EntryBody(v);
    OccursSplit(s, h2 + v.title, EntryBody(v), e);
    OccursSplit(s, h2, v.title, e);
    BodyPieces(s, e + |h2| + |v.title|, v);
  }

  /**
   * A line break at e - 1 with no application part matching from q up to it, then the
   * second entry's header, title, title end and explanation: the application part matches
   * nowhere up to the end of that explanation.
   */
  lemma MergedNoTail(s: string, q: nat, e: nat, v: UseCase)
    requires Writable(v) && !Contains(v.title, Newline)
    requires var pv := e + |Header(2)| + |v.title|;
      && OccursAt(s, Header(2), e) && OccursAt(s, v.title, e + |Header(2)|)
      && OccursAt(s, TitleEnd, pv) && OccursAt(s, Tag(ExplanationLabel), pv + 4)
      && OccursAt(s, " " + v.explanation, pv + 4 + |Tag(ExplanationLabel)|)
    requires q < e && s[e - 1] == '\n' && forall j :: q <= j < e - 1 ==> TailAt(s, j).None?
    ensures forall j :: q <= j < SecondBreak(e, v) ==> TailAt(s, j).None?
  {
    var pv := e + |Header(2)| + |v.title|;
    NoTailInSecondHead(s, e, v.title);
    NoTailInSecondTag(s, pv);
    NoBreakAfterBlank(v.explanation);
    NoTailInLine(s, pv + 4 + |Tag(ExplanationLabel)|, " " + v.explanation);
  }

  /**
   * A line break at e - 1 with no application part matching from q up to it, then the
   * second entry at e: the application part first matches at the second entry's
   * application line, and group 5 there is its application.
   */
  lemma MergedTail(s: string, q: nat, e: nat, v: UseCase)
    requires Writable(v) && !Contains(v.title, Newline)
    requires OccursAt(s, Entry(2, v), e)
    requires q < e && s[e - 1] == '\n' && forall j :: q <= j < e - 1 ==> TailAt(s, j).None?
    ensures forall j :: q <= j < SecondBreak(e, v) ==> TailAt(s, j).None?
    ensures TailAt(s, SecondBreak(e, v)).Some?
    ensures var tl := TailAt(s, SecondBreak(e, v)).value;
      && tl.appEnd + 1 == e + |Entry(2, v)| && s[tl.appStart..tl.appEnd] == " " + ApplicationText(v)
  {
    SecondPieces(s, e, v);
    MergedNoTail(s, q, e, v);
    var m2 := SecondBreak(e, v);
    var x := " " + ApplicationText(v);
    NoBreakAfterBlank(ApplicationText(v));
    TailOfLine(s, m2, x);
    SliceAtOccurrence(s, x, m2 + 1 + |Tag(ApplicationLabel)|);
  }

  /** The text from q to the second explanation's end holds the second header, and strip keeps it. */
  lemma MergedExplanation(s: string, q: nat, e: nat, v: UseCase)
    requires Writable(v) && q <= e && OccursAt(s, Entry(2, v), e)
    ensures SecondBreak(e, v) <= |s| && Contains(Strip(s[q..SecondBreak(e, v)]), Header(2))
  {
    var h2 := Header(2);
    var m2 := SecondBreak(e, v);
    assert Entry(2, v) == h2 + v.title + EntryBody(v);
    OccursSplit(s, h2 + v.title, EntryBody(v), e);
    OccursSplit(s, h2, v.title, e);
    var pv := e + |h2| + |v.title|;
    BodyPieces(s, pv, v);
    assert s[e + 0] == h2[0];
    assert !IsSpace(s[e + |h2|]) by {
      if v.title != "" {
        assert s[e + |h2| + 0] == v.title[0];
      } else {
        assert s[pv + 0] == TitleEnd[0];
      }
    }
    OccursInSlice(s, h2, e, q, m2);
    StripKeepsInner(s[q..m2], h2, e - q);
  }

  /**
   * The first explanation line, x after a blank, then the second entry at e: group 3, from
   * q on, stops only at the second entry's application line.
   */
  lemma MergedGroup3(s: string, q: nat, x: string, e: nat, v: UseCase)
    requires Writable(v) && !Contains(v.title, Newline) && !Contains(x, Newline)
    requires OccursAt(s, " " + x, q) && OccursAt(s, Newline, q + 1 + |x|)
    requires e == q + 2 + |x| && OccursAt(s, Entry(2, v), e)
    ensures forall j :: q <= j < SecondBreak(e, v) ==> TailAt(s, j).None?
    ensures TailAt(s, SecondBreak(e, v)).Some?
    ensures var tl := TailAt(s, SecondBreak(e, v)).value;
      && tl.appEnd + 1 == e + |Entry(2, v)| && s[tl.appStart..tl.appEnd] == " " + ApplicationText(v)
  {
    NoBreakAfterBlank(x);
    NoTailInLine(s, q, " " + x);
    assert s[(e - 1) + 0] == Newline[0];
    MergedTail(s, q, e, v);
  }

  /**
   * After the title end of an entry without its application line, followed at e by the
   * second entry, the rest matches with group 3 running up to the second application line,
   * and group 5 is the second entry's application.
   */
  lemma MergedRest(s: string, p: nat, u: UseCase, e: nat, v: UseCase)
    requires Writable(u) && Writable(v) && !Contains(v.title, Newline)
    requires var q := p + 4 + |Tag(ExplanationLabel)|;
      && OccursAt(s, TitleEnd, p) && OccursAt(s, Tag(ExplanationLabel), p + 4)
      && OccursAt(s, " " + u.explanation, q) && OccursAt(s, Newline, q + 1 + |u.explanation|)
      && e == q + 2 + |u.explanation| && OccursAt(s, Entry(2, v), e)
    ensures RestAt(s, p).Some?
    ensures var r := RestAt(s, p).value;
      && r.expStart == p + 4 + |Tag(ExplanationLabel)| && r.expEnd == SecondBreak(e, v)
      && r.tail.appEnd + 1 == e + |Entry(2, v)|
      && s[r.tail.appStart..r.tail.appEnd] == " " + ApplicationText(v)
  {
    var q := p + 4 + |Tag(ExplanationLabel)|;
    MergedGroup3(s, q, u.explanation, e, v);
    RestFromTagged(s, p + 4, SecondBreak(e, v));
    RestAtTitleEnd(s, p);
  }

  /**
   * In a text made of an entry without its application line and a second entry, the header
   * ends at t, group 1 stops at p with the first title, and the rest at p runs through the
   * second entry.
   */
  lemma MergedHead(s: string, u: UseCase, v: UseCase) returns (t: nat, p: nat)
    requires Writable(u) && Writable(v) && !Contains(v.title, Newline)
    requires OccursAt(s, Unfinished(1, u), 0) && OccursAt(s, Entry(2, v), |Unfinished(1, u)|)
    ensures t <= p <= |s| && HeaderEnd(s, 0) == Some(t) && FirstRest(s, t) == Some(p) && s[t..p] == u.title
    ensures RestAt(s, p).Some?
    ensures var r := RestAt(s, p).value;
      && r.expStart <= r.expEnd && r.tail.appStart <= r.tail.appEnd
      && Contains(Strip(s[r.expStart..r.expEnd]), Header(2))
      && r.tail.appEnd + 1 == |Unfinished(1, u)| + |Entry(2, v)|
      && s[r.tail.appStart..r.tail.appEnd] == " " + ApplicationText(v)
  {
    UnfinishedPieces(s, 0, 1, u);
    t := |Header(1)|;
    p := t + |u.title|;
    MergedRest(s, p, u, |Unfinished(1, u)|, v);
    MergedExplanation(s, p + 4 + |Tag(ExplanationLabel)|, |Unfinished(1, u)|, v);
    FirstTitle(s, t, u.title);
  }

  /** The first header, then a title without asterisks up to where the rest matches: group 1 is that title. */
  lemma FirstTitle(s: string, t: nat, title: string)
    requires t == |Header(1)| && OccursAt(s, Header(1), 0) && OccursAt(s, title, t)
    requires !Contains(title, "*") && RestAt(s, t + |title|).Some?
    ensures HeaderEnd(s, 0) == Some(t) && FirstRest(s, t) == Some(t + |title|)
    ensures s[t..t + |title|] == title
  {
    CharsOfOccurrence(s, title, t, '*');
    FirstRestPastStars(s, t, t + |title|);
    HeaderEndOfHeader(s, 0, 1);
    SliceAtOccurrence(s, title, t);
  }

  /**
   * The match at the start of a text made of an entry without its application line and a
   * second entry: the first title, group 3 holding the second header, group 5 the second
   * application, and it runs to the end of the text.
   */
  lemma MergedMatch(s: string, u: UseCase, v: UseCase)
    requires Writable(u) && Writable(v) && !Contains(v.title, Newline)
    requires OccursAt(s, Unfinished(1, u), 0) && OccursAt(s, Entry(2, v), |Unfinished(1, u)|)
    requires |s| == |Unfinished(1, u)| + |Entry(2, v)|
    ensures MatchAt(s, 0).Some?
    ensures var mm := MatchAt(s, 0).value;
      && mm.end == |s| && mm.title == u.title && Contains(Strip(mm.explanation), Header(2))
      && mm.application == " " + ApplicationText(v)
  {
    var t, p := MergedHead(s, u, v);
    MatchAtOf(s, 0, t, p);
  }

  /**
   * An entry whose application line is missing is not skipped: the lazy explanation group
   * runs on through the next entry up to that entry's application line, so the two entries
   * give one record, with the first title, an explanation holding the second header, and
   * the second entry's application.
   */
  lemma MissingApplicationMerges(u: UseCase, v: UseCase)
    requires Writable(u) && Writable(v) && !Contains(v.title, Newline)
    ensures var r := UseCasesOf(Unfinished(1, u) + Entry(2, v));
      && |r| == 1 && r[0].title == u.title && Contains(r[0].explanation, Header(2))
      && r[0].practicalApplication == v.practicalApplication
  {
    var s := Unfinished(1, u) + Entry(2, v);
    assert OccursAt(s, Unfinished(1, u), 0) by {
      assert s == "" + Unfinished(1, u) + Entry(2, v);
      OccursInMiddle("", Unfinished(1, u), Entry(2, v));
    }
    assert OccursAt(s, Entry(2, v), |Unfinished(1, u)|) by {
      assert s == Unfinished(1, u) + Entry(2, v) + "";
      OccursInMiddle(Unfinished(1, u), Entry(2, v), "");
    }
    MergedMatch(s, u, v);
    MergedRecords(s, MatchAt(s, 0).value);
    StripStripped(u.title);
    MergedApplication(MatchAt(s, 0).value.application, v);
  }

  /** A match at the start that runs to the end is all the scan finds. */
  lemma MergedRecords(s: string, mm: Match)
    requires MatchAt(s, 0) == Some(mm) && mm.end == |s|
    ensures UseCasesOf(s) == [ToUseCase(mm)]
  {
    assert Table(s)[0] == MatchAt(s, 0);
    SelectStep(Table(s), 0);
    assert FindAll(s) == [mm];
  }

  /** Group 5 of the second entry's application line gives that entry's applications. */
  lemma MergedApplication(g: string, v: UseCase)
    requires Writable(v) && g == " " + ApplicationText(v)
    ensures StrippedLines(Strip(g)) == v.practicalApplication
  {
    var x := ApplicationText(v);
    StripLeadingSpace(x);
    StripStripped(x);
    OneLine(x);
    if v.practicalApplication != [] {
      assert v.practicalApplication == [x];
    }
  }
}
