/**
 * How the parser generations differ, and where they agree, on concrete and
 * on arbitrary pages.
 */
module Generations {
  import opened Wrappers
  import opened Text
  import opened Dom
  import opened Patterns
  import opened Fields
  import opened DomainModels
  import HtmlParserCommon
  import RucPageParser
  import SearchListHtmlParser

  /** A prefix of dashes and spaces is exactly what TrimStart('-', ' ') drops. */
  lemma {:induction false} DashPrefixDropped(p: string, s: string)
    requires forall i :: 0 <= i < |p| ==> p[i] == '-' || p[i] == ' '
    requires s != [] && s[0] != '-' && s[0] != ' '
    ensures TrimDashesAndSpaces(p + s) == s
    decreases |p|
  {
    if p == [] {
      assert p + s == s;
    } else {
      assert (p + s)[1..] == p[1..] + s;
      DashPrefixDropped(p[1..], s);
    }
  }

  /** Trimming a string whose only white space is one leading space. */
  lemma TrimOneSpace(s: string)
    requires s != [] && !IsWhiteSpace(s[0]) && !IsWhiteSpace(s[|s| - 1])
    ensures Trim([' '] + s) == s
  {
    assert ([' '] + s)[1..] == s;
    assert TrimStart(s) == s;
    assert TrimStart([' '] + s) == s;
    assert TrimEnd(s) == s;
  }

  /** The AngleSharp generation drops every leading dash and space of " - - " before a name. */
  lemma CommonNameAfterId(name: string)
    requires name != [] && Trimmed(name) && name[0] != '-'
    ensures HtmlParserCommon.NameAfterId(" - - " + name) == Some(name)
  {
    DashPrefixDropped(" - - ", name);
    TrimKeeps(name);
  }

  /** The older generation drops only the first dash of " - - " before a name. */
  lemma OlderNameAfterId(name: string)
    requires name != [] && Trimmed(name) && name[0] != '-'
    ensures RucPageParser.NameAfterId(" - - " + name) == Some("- " + name)
  {
    var inner := "- " + name;
    var outer := "- - " + name;
    assert " - - " + name == [' '] + outer;
    assert outer == ['-'] + ([' '] + inner);
    TrimOneSpace(outer);
    TrimOneSpace(inner);
    OneDashDropped(" - - " + name, [' '] + inner);
  }

  /** The older generation drops one leading dash of the trimmed text and trims again. */
  lemma OneDashDropped(rest: string, t: string)
    requires Trim(rest) == ['-'] + t && Trim(t) != []
    ensures RucPageParser.NameAfterId(rest) == Some(Trim(t))
  {
    assert (['-'] + t)[1..] == t;
  }

  /** `w: v` with w free of ':' and v free of white space at its ends: its paragraph value is v. */
  lemma ParagraphValueOf(w: string, v: string)
    requires ':' !in w
    requires v != [] && !IsWhiteSpace(v[0]) && !IsWhiteSpace(v[|v| - 1])
    ensures ParagraphValue(w + [':', ' '] + v) == v
  {
    var p := w + [':', ' '] + v;
    assert p[..|w|] == w;
    IndexOfAt(p, ':', |w|);
    assert p[|w| + 1..] == [' '] + v;
    TrimOneSpace(v);
  }

  /**
   * `w: v` where w spells the label and v is one line starting with a
   * non-space: the pattern captures v, whatever follows on the same line.
   */
  lemma LabelRestOf(s: string, w: string, lab: Label, v: string)
    requires |w| == |lab| && forall j :: 0 <= j < |w| ==> w[j] in lab[j]
    requires v != [] && !IsWhiteSpace(v[0]) && '\n' !in v
    requires s == w + [':', ' '] + v
    ensures LabelRest(s, lab) == Some(v)
  {
    assert s[..|w|] == w;
    LabelAtSpelling(s, 0, lab, w);
    assert s[|w|] == ':' && s[|w| + 1] == ' ' && s[|w| + 2] == v[0];
    assert SkipWhiteSpace(s, |w|) == |w|;
    assert SkipWhiteSpace(s, |w| + 2) == |w| + 2;
    assert SkipWhiteSpace(s, |w| + 1) == |w| + 2;
    assert forall i :: |w| + 2 <= i < |s| ==> s[i] == v[i - |w| - 2];
    assert LineEnd(s, |w| + 2) == |s|;
    assert s[|w| + 2..|s|] == v;
    assert RestOfLine(s, |w| + 1) == Some(v);
    assert LabelRestAt(s, 0, lab) == Some(v);
    LabelRestLeftmost(s, lab, 0);
  }

  /**
   * A result anchor with a location paragraph and a status paragraph that
   * sit next to each other, with no line break between them in its text.
   */
  function RunTogetherRow(loc: string, status: string): Anchor {
    var ubicacion := "Ubicación" + [':', ' '] + loc;
    var estado := "Estado" + [':', ' '] + status;
    Anchor([], [ubicacion, estado], ubicacion + estado)
  }

  /** What a location or status value is like on the page: one line, no entity, no mis-decoded 'Ã'. */
  predicate PlainValue(v: string) {
    v != [] && !IsWhiteSpace(v[0]) && !IsWhiteSpace(v[|v| - 1]) &&
    '\n' !in v && '&' !in v && 'Ã' !in v
  }

  /** No paragraph of such a row holds the garbled marker; the first one holds the correct one. */
  lemma MarkerInParagraphs(loc: string, status: string)
    requires PlainValue(loc) && PlainValue(status)
    ensures FirstContaining(RunTogetherRow(loc, status).paragraphs, SearchListHtmlParser.UbicacionMarkerAsWritten).None?
    ensures FirstContaining(RunTogetherRow(loc, status).paragraphs, "Ubicación") == Some(RunTogetherRow(loc, status).paragraphs[0])
  {
    var ps := RunTogetherRow(loc, status).paragraphs;
    var garbled := SearchListHtmlParser.UbicacionMarkerAsWritten;
    assert garbled[7] == 'Ã';
    assert 'Ã' !in "Ubicación" + [':', ' '] && 'Ã' !in "Estado" + [':', ' '];
    NotContainsByChar(ps[0], garbled, 'Ã');
    NotContainsByChar(ps[1], garbled, 'Ã');
    assert ps[0][..9] == "Ubicación";
    assert OccursAt(ps[0], "Ubicación", 0);
  }

  /** The anchor text of such a row holds no entity, so decoding leaves it as it is. */
  lemma RowTextDecoded(loc: string, status: string)
    requires PlainValue(loc) && PlainValue(status)
    ensures HtmlDecode(RunTogetherRow(loc, status).text) == RunTogetherRow(loc, status).text
  {
    assert '&' !in "Ubicación" + [':', ' '] && '&' !in "Estado" + [':', ' '];
  }

  /** A row whose paragraphs miss the marker takes its location from the pattern over the decoded text. */
  lemma LocationFromText(a: Anchor, marker: string, v: string)
    requires FirstContaining(a.paragraphs, marker).None?
    requires LabelRest(HtmlDecode(a.text), UbicacionLabel) == Some(v) && Trim(v) == v
    ensures ListRow(a, marker).ubicacion == Some(v)
  {
  }

  /** "Ubicación" spells the location label. */
  lemma UbicacionSpelled()
    ensures |"Ubicación"| == |UbicacionLabel|
    ensures forall j :: 0 <= j < |"Ubicación"| ==> "Ubicación"[j] in UbicacionLabel[j]
  {
    var w := "Ubicación";
    assert UbicacionLabel[7] == "óo";
    forall j | 0 <= j < |w| ensures w[j] in UbicacionLabel[j] {
      if j < 7 {
        assert UbicacionLabel[j] == Literal("Ubicaci")[j] == ["Ubicaci"[j]];
      } else if j == 8 {
        assert UbicacionLabel[j] == Literal("n")[0] == ['n'];
      }
    }
  }

  /** The location run on into the status is one line, trimmed at both ends. */
  lemma RunOnValue(loc: string, status: string)
    requires PlainValue(loc) && PlainValue(status)
    ensures var rest := loc + "Estado" + [':', ' '] + status;
      rest != [] && !IsWhiteSpace(rest[0]) && '\n' !in rest && Trim(rest) == rest
  {
    var rest := loc + "Estado" + [':', ' '] + status;
    assert rest[0] == loc[0] && rest[|rest| - 1] == status[|status| - 1];
    assert '\n' !in "Estado" + [':', ' '];
    TrimKeeps(rest);
  }

  /**
   * The garbled marker misses the location paragraph, so the location comes
   * from the anchor text, where the pattern runs on to the end of the line:
   * into "Estado:" and the status.
   */
  lemma GarbledMarkerMissesLocation(loc: string, status: string)
    requires PlainValue(loc) && PlainValue(status)
    ensures ListRow(RunTogetherRow(loc, status), SearchListHtmlParser.UbicacionMarkerAsWritten).ubicacion ==
      Some(loc + "Estado" + [':', ' '] + status)
  {
    var a := RunTogetherRow(loc, status);
    var marker := SearchListHtmlParser.UbicacionMarkerAsWritten;
    var rest := loc + "Estado" + [':', ' '] + status;
    assert FirstContaining(a.paragraphs, marker).None? by {
      MarkerInParagraphs(loc, status);
    }
    RunTogetherText(loc, status);
    LocationFromText(a, marker, rest);
  }

  /** On the run-together row's anchor text, the location pattern captures the location and everything after it. */
  lemma RunTogetherText(loc: string, status: string)
    requires PlainValue(loc) && PlainValue(status)
    ensures var rest := loc + "Estado" + [':', ' '] + status;
      Trim(rest) == rest && LabelRest(HtmlDecode(RunTogetherRow(loc, status).text), UbicacionLabel) == Some(rest)
  {
    var a := RunTogetherRow(loc, status);
    var rest := loc + "Estado" + [':', ' '] + status;
    RowTextDecoded(loc, status);
    RunOnValue(loc, status);
    RunTogetherTextShape(loc, status);
    UbicacionSpelled();
    LabelRestOf(a.text, "Ubicación", UbicacionLabel, rest);
  }

  /** The run-together anchor text is the location label, then the location run on into the status. */
  lemma RunTogetherTextShape(loc: string, status: string)
    ensures RunTogetherRow(loc, status).text == "Ubicación" + [':', ' '] + (loc + "Estado" + [':', ' '] + status)
  {
    var u, e := "Ubicación" + [':', ' '], "Estado" + [':', ' '];
    assert loc + "Estado" + [':', ' '] + status == loc + (e + status);
    assert RunTogetherRow(loc, status).text == u + loc + (e + status);
  }

  /** With the marker spelled correctly the location is the paragraph's value alone. */
  lemma CorrectMarkerFindsLocation(loc: string, status: string)
    requires PlainValue(loc) && PlainValue(status)
    ensures ListRow(RunTogetherRow(loc, status), "Ubicación").ubicacion == Some(loc)
  {
    MarkerInParagraphs(loc, status);
    ParagraphValueOf("Ubicación", loc);
  }
}
