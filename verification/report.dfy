/**
  The closing report: a fixed list of lines built from the sent counter and
  the anomaly list, joined with "\n" and mailed as a plain-text body.
 */
module Report {
  import opened Text

  const TITLE := "REPORTE ENV\U{CD}O CORREOS RETENCIONES\n"
  const COUNT_PREFIX := "Correos enviados correctamente: "
  const ANOMALIES_HEADER := "NOVEDADES DETECTADAS:"
  const NO_ANOMALIES := "No se presentaron novedades."
  const CLOSING := "\nEl proceso de env\U{ED}o ha finalizado correctamente."
  const BULLET := "- "

  /** The counter line; it ends in a newline of its own, so a blank line follows it. */
  function CountLine(sent: nat): string {
    COUNT_PREFIX + NatToDecimal(sent) + "\n"
  }

  /** One line per anomaly, in order. */
  function Bullets(anomalies: seq<string>): seq<string> {
    seq(|anomalies|, k requires 0 <= k < |anomalies| => BULLET + anomalies[k])
  }

  /**
    The report's lines before they are joined. The title comes first, the
    counter second, the closing line last, and between them either the
    no-anomaly line alone or the header and one bullet per anomaly, in the
    order the anomalies were found.
   */
  function ReportLines(sent: nat, anomalies: seq<string>): (lines: seq<string>)
    ensures |lines| >= 4
    ensures lines[0] == TITLE
    ensures lines[1] == CountLine(sent)
    ensures lines[|lines| - 1] == CLOSING
    ensures anomalies == [] ==> |lines| == 4 && lines[2] == NO_ANOMALIES
    ensures anomalies != [] ==>
      && |lines| == |anomalies| + 4
      && lines[2] == ANOMALIES_HEADER
      && forall k :: 0 <= k < |anomalies| ==> lines[3 + k] == BULLET + anomalies[k]
  {
    [TITLE, CountLine(sent)]
    + (if anomalies == [] then [NO_ANOMALIES] else [ANOMALIES_HEADER] + Bullets(anomalies))
    + [CLOSING]
  }

  /** The report text: it opens with the title and the counter line and closes with the closing line. */
  function ReportText(sent: nat, anomalies: seq<string>): (text: string)
    ensures StartsWith(text, TITLE + "\n" + CountLine(sent) + "\n")
    ensures EndsWith(text, "\n" + CLOSING)
  {
    var lines := ReportLines(sent, anomalies);
    var front := lines[..|lines| - 1];
    assert lines == front + [CLOSING];
    JoinAppend(front, [CLOSING], "\n");
    assert front[1..][0] == CountLine(sent) && |front[1..]| >= 2;
    Join(lines, "\n")
  }

  /**
    The report builder: appends the title, the counter line, then either
    the header and one bullet per anomaly or the no-anomaly line, then the
    closing line, and joins them.
   */
  method BuildReport(sent: nat, anomalies: seq<string>) returns (text: string)
    ensures text == ReportText(sent, anomalies)
  {
    var lines := [TITLE];
    lines := lines + [CountLine(sent)];
    if anomalies != [] {
      lines := lines + [ANOMALIES_HEADER];
      var i := 0;
      while i < |anomalies|
        invariant 0 <= i <= |anomalies|
        invariant lines == [TITLE, CountLine(sent), ANOMALIES_HEADER] + Bullets(anomalies[..i])
      {
        assert Bullets(anomalies[..i + 1]) == Bullets(anomalies[..i]) + [BULLET + anomalies[i]];
        lines := lines + [BULLET + anomalies[i]];
        i := i + 1;
      }
      assert anomalies[..i] == anomalies;
    } else {
      lines := lines + [NO_ANOMALIES];
    }
    lines := lines + [CLOSING];
    assert lines == ReportLines(sent, anomalies);
    text := Join(lines, "\n");
  }

  // ---------------------------------------------------------------------
  // Reading the report back
  // ---------------------------------------------------------------------

  /** The count a counter line shows (0 for a line that is not one). */
  function CountOf(line: string): nat {
    if |line| > |COUNT_PREFIX| && forall c :: c in line[|COUNT_PREFIX|..|line| - 1] ==> IsDigit(c)
    then ParseDecimal(line[|COUNT_PREFIX|..|line| - 1])
    else 0
  }

  /** The anomalies a list of report lines shows: the bullets after the header, without their dash. */
  function AnomaliesOf(lines: seq<string>): seq<string> {
    if |lines| >= 4 && lines[2] == ANOMALIES_HEADER then
      seq(|lines| - 4, k requires 0 <= k < |lines| - 4 =>
        var l := lines[3 + k];
        if |l| >= |BULLET| then l[|BULLET|..] else l)
    else []
  }

  /** The report loses nothing: the counter and every anomaly, in order, can be read back from its lines. */
  lemma ReportRoundTrip(sent: nat, anomalies: seq<string>)
    ensures CountOf(ReportLines(sent, anomalies)[1]) == sent
    ensures AnomaliesOf(ReportLines(sent, anomalies)) == anomalies
  {
    var line := CountLine(sent);
    assert line[|COUNT_PREFIX|..|line| - 1] == NatToDecimal(sent);
    DecimalRoundTrip(sent);
    var lines := ReportLines(sent, anomalies);
    if anomalies == [] {
      assert NO_ANOMALIES[1] != ANOMALIES_HEADER[1];
    } else {
      assert |AnomaliesOf(lines)| == |anomalies|;
      forall k | 0 <= k < |anomalies|
        ensures AnomaliesOf(lines)[k] == anomalies[k]
      {
        assert lines[3 + k] == BULLET + anomalies[k];
      }
    }
  }

  /**
    The text with no anomaly: the title and the counter line each end in
    their own newline, so blank lines separate the three blocks.
   */
  lemma QuietReportText(sent: nat)
    ensures ReportText(sent, []) == TITLE + "\n" + CountLine(sent) + "\n" + NO_ANOMALIES + "\n" + CLOSING
  {
    var front, back := [TITLE, CountLine(sent)], [NO_ANOMALIES, CLOSING];
    assert ReportLines(sent, []) == front + back;
    JoinAppend(front, back, "\n");
    assert Join(front, "\n") == TITLE + "\n" + CountLine(sent) by {
      assert front[1..] == [CountLine(sent)];
    }
    assert Join(back, "\n") == NO_ANOMALIES + "\n" + CLOSING by {
      assert back[1..] == [CLOSING];
    }
  }

  /** The text with anomalies: the header, then the bullets joined line by line, then the closing line. */
  lemma BusyReportText(sent: nat, anomalies: seq<string>)
    requires anomalies != []
    ensures ReportText(sent, anomalies)
         == TITLE + "\n" + CountLine(sent) + "\n" + ANOMALIES_HEADER + "\n"
            + Join(Bullets(anomalies), "\n") + "\n" + CLOSING
  {
    var head := [TITLE, CountLine(sent), ANOMALIES_HEADER];
    var b := Bullets(anomalies);
    assert Join(head, "\n") == TITLE + "\n" + CountLine(sent) + "\n" + ANOMALIES_HEADER by {
      assert head == [TITLE, CountLine(sent)] + [ANOMALIES_HEADER];
      JoinAppend([TITLE, CountLine(sent)], [ANOMALIES_HEADER], "\n");
      assert [TITLE, CountLine(sent)][1..] == [CountLine(sent)];
    }
    assert Join(b + [CLOSING], "\n") == Join(b, "\n") + "\n" + CLOSING by {
      JoinAppend(b, [CLOSING], "\n");
    }
    assert ReportText(sent, anomalies) == Join(head, "\n") + "\n" + Join(b + [CLOSING], "\n") by {
      assert ReportLines(sent, anomalies) == head + (b + [CLOSING]);
      JoinAppend(head, b + [CLOSING], "\n");
    }
  }
}
