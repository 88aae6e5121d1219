/** `format_summary_as_html`: a chapter's rewritten text as a heading and one paragraph per line. */
module Html {
  import opened Text

  const Heading := "<h1>Summary</h1>"

  /** `p.strip()` for every line `p`, in order. */
  function StripAll(lines: seq<string>): seq<string>
  {
    if lines == [] then [] else [Strip(lines[0])] + StripAll(lines[1..])
  }

  /** The non-empty strings of `ps`, in order. */
  function DropEmpty(ps: seq<string>): seq<string>
  {
    if ps == [] then [] else (if ps[0] == [] then [] else [ps[0]]) + DropEmpty(ps[1..])
  }

  /** The paragraphs kept from `lines`: the stripped form of each line that is not blank, in order. */
  function NonBlank(lines: seq<string>): seq<string>
  {
    DropEmpty(StripAll(lines))
  }

  /** The first line gives its stripped form, unless it is blank; the other lines follow. */
  lemma NonBlankCons(lines: seq<string>)
    requires lines != []
    ensures NonBlank(lines) == (if Strip(lines[0]) == [] then [] else [Strip(lines[0])]) + NonBlank(lines[1..])
  {
  }

  lemma {:induction false} DropEmptyAppend(a: seq<string>, b: seq<string>)
    ensures DropEmpty(a + b) == DropEmpty(a) + DropEmpty(b)
  {
    if a == [] {
      assert a + b == b;
    } else {
      assert (a + b)[0] == a[0] && (a + b)[1..] == a[1..] + b;
      DropEmptyAppend(a[1..], b);
    }
  }

  /** Lines are filtered one at a time: the paragraphs of two blocks of lines are those of the first, then those of the second. */
  lemma NonBlankAppend(a: seq<string>, b: seq<string>)
    ensures NonBlank(a + b) == NonBlank(a) + NonBlank(b)
  {
    StripAllAppend(a, b);
    DropEmptyAppend(StripAll(a), StripAll(b));
  }

  lemma {:induction false} StripAllAppend(a: seq<string>, b: seq<string>)
    ensures StripAll(a + b) == StripAll(a) + StripAll(b)
  {
    if a == [] {
      assert a + b == b;
    } else {
      assert (a + b)[0] == a[0] && (a + b)[1..] == a[1..] + b;
      StripAllAppend(a[1..], b);
    }
  }

  /** One line gives one paragraph, its stripped text, unless it is blank, when it gives none. */
  lemma NonBlankOne(line: string)
    ensures AllSpace(line) ==> NonBlank([line]) == []
    ensures !AllSpace(line) ==> NonBlank([line]) == [Strip(line)]
  {
    NonBlankCons([line]);
    assert NonBlank([]) == [];
  }

  /** Every paragraph kept is non-empty and has no whitespace at either end. */
  lemma {:induction false} NonBlankStripped(lines: seq<string>)
    ensures forall p :: p in NonBlank(lines) ==> p != [] && !IsSpace(p[0]) && !IsSpace(p[|p| - 1])
  {
    if lines != [] {
      NonBlankStripped(lines[1..]);
      NonBlankCons(lines);
    }
  }

  /** The texts of the `<p>` elements: the non-blank lines of the stripped summary, each stripped. */
  function Paragraphs(summary: string): seq<string>
  {
    NonBlank(Split(Strip(summary), '\n'))
  }

  function Render(ps: seq<string>): string
  {
    if ps == [] then [] else "<p>" + ps[0] + "</p>" + Render(ps[1..])
  }

  /** `format_summary_as_html(summary_text)` */
  function FormatSummaryAsHtml(summary: string): (html: string)
    ensures |Heading| <= |html| && html[..|Heading|] == Heading
    ensures html == Heading <==> AllSpace(summary)
    ensures html == Heading + Render(Paragraphs(summary))
  {
    ParagraphsEmpty(summary);
    Heading + Render(Paragraphs(summary))
  }

  /** A summary has no paragraph exactly when it is blank. */
  lemma ParagraphsEmpty(summary: string)
    ensures Paragraphs(summary) == [] <==> AllSpace(summary)
  {
    var ps := Paragraphs(summary);
    ParagraphsKeepText(summary);
    NonSpaceEmpty(summary);
    if ps != [] {
      NonBlankStripped(Split(Strip(summary), '\n'));
      assert ps[0] in ps;
      assert Concat(ps) == ps[0] + Concat(ps[1..]);
      NonSpaceAppend(ps[0], Concat(ps[1..]));
      assert NonSpace(ps[0]) == [ps[0][0]] + NonSpace(ps[0][1..]);
    }
  }

  /** The `<p>` elements of two runs of paragraphs, one after the other. */
  lemma {:induction false} RenderAppend(a: seq<string>, b: seq<string>)
    ensures Render(a + b) == Render(a) + Render(b)
  {
    if a != [] {
      assert (a + b)[1..] == a[1..] + b;
      RenderAppend(a[1..], b);
    } else {
      assert a + b == b;
    }
  }

  lemma {:induction false} NonBlankKeepsText(lines: seq<string>)
    ensures NonSpace(Concat(NonBlank(lines))) == NonSpace(Concat(lines))
  {
    if lines != [] {
      var l := lines[0];
      NonBlankKeepsText(lines[1..]);
      StripKeepsText(l);
      NonSpaceAppend(l, Concat(lines[1..]));
      var kept := if Strip(l) == [] then [] else [Strip(l)];
      NonBlankCons(lines);
      ConcatPrefix(kept, NonBlank(lines[1..]));
      NonSpaceAppend(Concat(kept), Concat(NonBlank(lines[1..])));
      if Strip(l) == [] {
        NonSpaceEmpty(l);
      } else {
        assert Concat(kept) == Strip(l) + [];
        assert Concat(kept) == Strip(l);
      }
      assert Concat(lines) == l + Concat(lines[1..]);
    }
  }

  lemma ConcatPrefix(a: seq<string>, b: seq<string>)
    requires |a| <= 1
    ensures Concat(a + b) == Concat(a) + Concat(b)
  {
    if a != [] {
      assert (a + b)[1..] == b;
      assert Concat(a) == a[0] + [];
    } else {
      assert a + b == b;
    }
  }

  /**
    Rendering keeps every visible character of the summary, in order, and each
    paragraph is one non-blank, stripped line.
   */
  lemma ParagraphsKeepText(summary: string)
    ensures NonSpace(Concat(Paragraphs(summary))) == NonSpace(summary)
    ensures forall i :: 0 <= i < |Paragraphs(summary)| ==> '\n' !in Paragraphs(summary)[i]
  {
    var lines := Split(Strip(summary), '\n');
    JoinSplit(Strip(summary), '\n');
    NonSpaceJoin(lines, '\n');
    StripKeepsText(summary);
    NonBlankKeepsText(lines);
    NoNewlineKept(lines);
  }

  lemma {:induction false} NoNewlineKept(lines: seq<string>)
    requires forall i :: 0 <= i < |lines| ==> '\n' !in lines[i]
    ensures forall i :: 0 <= i < |NonBlank(lines)| ==> '\n' !in NonBlank(lines)[i]
  {
    if lines != [] {
      NoNewlineKept(lines[1..]);
      NonBlankCons(lines);
      var l := lines[0];
      var k := LeadingSpace(l);
      assert forall c :: c in l[k..k + |Strip(l)|] ==> c in l;
    }
  }

  /** A one-line summary becomes exactly one paragraph, its stripped text. */
  lemma SingleLine(summary: string)
    requires '\n' !in summary && !AllSpace(summary)
    ensures Paragraphs(summary) == [Strip(summary)]
  {
    var s := Strip(summary);
    var k := LeadingSpace(summary);
    assert forall c :: c in summary[k..k + |s|] ==> c in summary;
    SplitJoin([s], '\n');
    StripStripped(s);
    NonBlankOne(s);
  }
}
