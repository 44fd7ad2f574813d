/**
  The mailer end to end: load the vendors from the spreadsheet rows, run
  the dispatch loop over them, then mail the closing report to the fixed
  report address. When the loop dies on an empty template or subject pool,
  the script ends there and no report is sent.
 */
module Script {
  import opened Wrappers
  import opened Text
  import opened Normalizer
  import opened Vendors
  import opened Dispatch
  import opened Report

  const REPORT_TO := "abicdev26@gmail.com"
  const REPORT_SUBJECT := "reporte envio correo de retenciones"

  /**
    The report message goes to the fixed report address under the fixed
    subject, as plain text with no attachment; its text opens with the
    title and the counter line and closes with the closing line.
   */
  function ReportMail(sent: nat, anomalies: seq<string>): (m: Mail)
    ensures m.to == REPORT_TO && m.subject == REPORT_SUBJECT && m.attachments == []
    ensures m.body.Plain?
    ensures StartsWith(m.body.text, TITLE + "\n" + CountLine(sent) + "\n")
    ensures EndsWith(m.body.text, "\n" + CLOSING)
  {
    Mail(REPORT_TO, REPORT_SUBJECT, Plain(ReportText(sent, anomalies)), [])
  }

  /** What one run of the script reads, with the vendors taken from the rows. */
  function ScriptInputs(u: Unicode, cfg: Config, rows: seq<Row>, listing: seq<string>, clock: seq<nat>, picks: seq<Pick>): Inputs {
    Inputs(u, cfg, listing, VendorsOf(rows), clock, picks)
  }

  /**
    One run of the script: the messages sent to vendors, in order, each
    composed from the run's send log, and the report message when the loop
    was not aborted.
   */
  method SendCertificates(u: Unicode, cfg: Config, rows: seq<Row>, listing: seq<string>, clock: seq<nat>, picks: seq<Pick>)
    returns (outbox: seq<Mail>, report: Option<Mail>)
    requires ScriptInputs(u, cfg, rows, listing, clock, picks).WellFormed()
    ensures
      var r := Run(ScriptInputs(u, cfg, rows, listing, clock, picks));
      && outbox == Messages(cfg, r.tally.log)
      && (report.Some? <==> r.ending != EmptyPool)
      && (report.Some? ==> report.value == ReportMail(r.tally.sent, r.tally.anomalies))
  {
    var vendors := LoadVendors(rows);
    var inp := Inputs(u, cfg, listing, vendors, clock, picks);
    var sent, anomalies, log, ending, handled;
    sent, anomalies, log, outbox, ending, handled := DispatchAll(inp);
    if ending == EmptyPool {
      report := None;
    } else {
      var text := BuildReport(sent, anomalies);
      report := Some(Mail(REPORT_TO, REPORT_SUBJECT, Plain(text), []));
    }
  }

  /**
    The report tells the truth about the run: the count it shows is the
    number of vendor messages sent, and the anomalies it lists are the
    run's, in order, ending with the cutoff note exactly when the cutoff
    stopped the run.
   */
  lemma ReportMatchesRun(inp: Inputs)
    requires inp.WellFormed()
    ensures
      var r := Run(inp);
      var lines := ReportLines(r.tally.sent, r.tally.anomalies);
      && CountOf(lines[1]) == |r.tally.log|
      && AnomaliesOf(lines) == NotesUpTo(PlanOf(inp), r.handled) + (if r.ending == Cutoff then [HALT_NOTE] else [])
  {
    var r := Run(inp);
    RunCounts(inp);
    ReportRoundTrip(r.tally.sent, r.tally.anomalies);
  }
}
