/**
  The dispatch loop: for each vendor, in load order, validate the email,
  locate the vendor's PDFs, compose and send one message with all of them
  attached, and collect anomalies; after every send, stop for the day once
  the clock is past 17:30:00.

  What the loop reads from the outside world is given as `Inputs`: the
  Unicode tables, the advisor configuration and the template and subject
  pools, the directory listing, the vendor list, the time of day read after
  each vendor's send, and the two random draws made for each vendor. The
  run records each send as an event (who, which PDFs, which draws); the
  message handed to the mail client is composed from that event.
 */
module Dispatch {
  import opened Wrappers
  import opened Text
  import opened Normalizer
  import opened Locator
  import opened Vendors
  import opened Templates

  // ---------------------------------------------------------------------
  // Data
  // ---------------------------------------------------------------------

  /** The advisor identity and the template and subject pools loaded at start-up. */
  datatype Config = Config(advisor: string, advisorEmail: string, templates: seq<string>, subjects: seq<string>)

  datatype Body = Html(html: string) | Plain(text: string)

  /** One message handed to the mail client. */
  datatype Mail = Mail(to: string, subject: string, body: Body, attachments: seq<string>)

  /** What the two `random.choice` calls return for one vendor: a template and a subject. */
  datatype Pick = Pick(template: string, subject: string)

  /** A draw from a pool that is not empty is one of its elements (an empty pool cannot be drawn from). */
  predicate PickFits(cfg: Config, p: Pick) {
    && (cfg.templates != [] ==> p.template in cfg.templates)
    && (cfg.subjects != [] ==> p.subject in cfg.subjects)
  }

  /**
    Everything one run reads. `clock[k]` is the time of day, in
    microseconds since midnight, read right after vendor `k`'s message is
    sent; `picks[k]` are the draws for vendor `k`. Entries for vendors that
    send nothing are never read.
   */
  datatype Inputs = Inputs(
    u: Unicode,
    cfg: Config,
    listing: seq<string>,
    vendors: seq<Vendor>,
    clock: seq<nat>,
    picks: seq<Pick>)
  {
    predicate WellFormed() {
      && |clock| == |vendors|
      && |picks| == |vendors|
      && forall k :: 0 <= k < |picks| ==> PickFits(cfg, picks[k])
    }

    predicate PoolsEmpty() {
      cfg.templates == [] || cfg.subjects == []
    }
  }

  /** One send as the loop records it: the vendor, every matched PDF, and the draws. */
  datatype Send = Send(vendor: Vendor, paths: seq<string>, pick: Pick)

  /** The counter, the anomaly list and the sends so far. */
  datatype Tally = Tally(sent: nat, anomalies: seq<string>, log: seq<Send>)

  /**
    How a run ends: the vendor list ran out, the 17:30 cutoff stopped it,
    or `random.choice` raised on an empty template or subject pool (the
    script then dies and no report is sent).
   */
  datatype Ending = Exhausted | Cutoff | EmptyPool

  /** The final tally, how the run ended, and how many vendors were fully handled. */
  datatype RunResult = RunResult(tally: Tally, ending: Ending, handled: nat)

  // ---------------------------------------------------------------------
  // Time
  // ---------------------------------------------------------------------

  function TimeOfDay(h: nat, m: nat, s: nat, us: nat): nat {
    ((h * 60 + m) * 60 + s) * 1000000 + us
  }

  /** 17:30:00.000000 of the same day. */
  const CUTOFF: nat := TimeOfDay(17, 30, 0, 0)

  // ---------------------------------------------------------------------
  // Anomaly texts
  // ---------------------------------------------------------------------

  function InvalidEmailNote(name: string): string {
    name + ": no tiene correo v\U{E1}lido."
  }

  function NoPdfNote(name: string): string {
    name + ": no tiene documentos PDF para enviar."
  }

  function ManyPdfNote(name: string, n: nat): string {
    name + ": se enviaron " + NatToDecimal(n) + " documentos PDF."
  }

  const HALT_NOTE := "Proceso detenido por l\U{ED}mite horario (5:30 PM)."

  // ---------------------------------------------------------------------
  // One vendor
  // ---------------------------------------------------------------------

  /** The only email check: not empty and holding an '@'. */
  predicate ValidEmail(email: string) {
    email != "" && '@' in email
  }

  /** What the loop does with one vendor, before any random draw or clock reading. */
  datatype Outcome = InvalidEmail | NoDocuments | Deliver(paths: seq<string>)

  /**
    A vendor is turned away for its email before the folder is looked at;
    a delivery carries at least one path and never more than the folder
    holds entries.
   */
  function Classify(u: Unicode, listing: seq<string>, v: Vendor): (o: Outcome)
    ensures o == InvalidEmail <==> !ValidEmail(v.email)
    ensures o.Deliver? ==> 1 <= |o.paths| <= |listing|
  {
    if !ValidEmail(v.email) then InvalidEmail
    else
      var found := Matches(u, Normalize(u, v.name), listing);
      if found == [] then NoDocuments else Deliver(Paths(found))
  }

  /**
    The three outcomes: an invalid email whatever the listing; no documents
    exactly when no listing entry matches the vendor's key; otherwise every
    matching entry, as a path, and at least one.
   */
  lemma ClassifyCases(u: Unicode, listing: seq<string>, v: Vendor)
    ensures var o := Classify(u, listing, v);
      && (o == InvalidEmail <==> !ValidEmail(v.email))
      && (o == NoDocuments <==>
            ValidEmail(v.email) && forall f :: f in listing ==> !IsPdfMatch(u, Normalize(u, v.name), f))
      && (o.Deliver? ==> o.paths == Paths(Matches(u, Normalize(u, v.name), listing)) && o.paths != [])
  {
    var found := Matches(u, Normalize(u, v.name), listing);
    MatchesMembers(u, Normalize(u, v.name), listing);
    if found != [] {
      assert found[0] in found;
    }
  }

  /** The anomalies a vendor adds, other than the cutoff note. */
  function VendorNotes(v: Vendor, o: Outcome): seq<string> {
    match o
    case InvalidEmail => [InvalidEmailNote(v.name)]
    case NoDocuments => [NoPdfNote(v.name)]
    case Deliver(paths) => if |paths| > 1 then [ManyPdfNote(v.name, |paths|)] else []
  }

  /** Both draws are elements of their pools. */
  predicate Drawn(cfg: Config, p: Pick) {
    p.template in cfg.templates && p.subject in cfg.subjects
  }

  /** The message sent to a vendor: the drawn subject, the drawn template filled in, every matched PDF. */
  function Compose(cfg: Config, s: Send): (m: Mail)
    ensures m.to == s.vendor.email && m.subject == s.pick.subject && m.attachments == s.paths
    ensures m.body.Html?
    ensures
      && !Contains(s.pick.template, CLIENT_TOKEN)
      && !Contains(s.pick.template, ADVISOR_TOKEN)
      && !Contains(s.pick.template, ADVISOR_EMAIL_TOKEN)
      ==> m.body == Html(s.pick.template)
  {
    Mail(s.vendor.email, s.pick.subject, Html(Render(s.pick.template, s.vendor.name, cfg.advisor, cfg.advisorEmail)), s.paths)
  }

  /** The messages of a log of sends, in order: one per send, the latest last. */
  function Messages(cfg: Config, log: seq<Send>): seq<Mail> {
    seq(|log|, k requires 0 <= k < |log| => Compose(cfg, log[k]))
  }

  /** Sending one more message appends its composition to the outbox. */
  lemma MessagesSnoc(cfg: Config, log: seq<Send>, s: Send)
    ensures Messages(cfg, log + [s]) == Messages(cfg, log) + [Compose(cfg, s)]
  {
  }

  // ---------------------------------------------------------------------
  // The run
  // ---------------------------------------------------------------------

  /**
    What the loop's control flow depends on: each vendor's outcome, whether
    a pool is empty, the clock readings and the draws. The directory
    listing and the Unicode tables matter only through the outcomes.
   */
  datatype Plan = Plan(vendors: seq<Vendor>, outcomes: seq<Outcome>, poolsEmpty: bool, clock: seq<nat>, picks: seq<Pick>)
  {
    predicate Valid() {
      |outcomes| == |vendors| && |clock| == |vendors| && |picks| == |vendors|
    }
  }

  /** The plan of a run: every vendor classified against the listing. */
  function PlanOf(inp: Inputs): (p: Plan)
    requires inp.WellFormed()
    ensures p.Valid() && p.vendors == inp.vendors
  {
    var outcomes := seq(|inp.vendors|, k requires 0 <= k < |inp.vendors| => Classify(inp.u, inp.listing, inp.vendors[k]));
    Plan(inp.vendors, outcomes, inp.PoolsEmpty(), inp.clock, inp.picks)
  }

  datatype Next = Continue(tally: Tally) | Halt(tally: Tally) | Crash

  /**
    One iteration of the loop, on vendor `k`. Whether it crashes or halts
    depends on the vendor alone, never on the tally so far; a halt always
    leaves the cutoff note last.
   */
  function Step(p: Plan, k: nat, t: Tally): (r: Next)
    requires p.Valid() && k < |p.vendors|
    ensures r.Crash? <==> Crashes(p, k)
    ensures r.Halt? <==> Halts(p, k)
    ensures r.Halt? ==> r.tally.anomalies != [] && r.tally.anomalies[|r.tally.anomalies| - 1] == HALT_NOTE
  {
    var v, o := p.vendors[k], p.outcomes[k];
    match o
    case Deliver(paths) =>
      if p.poolsEmpty then Crash
      else
        var t' := Tally(t.sent + 1, t.anomalies + VendorNotes(v, o), t.log + [Send(v, paths, p.picks[k])]);
        if p.clock[k] > CUTOFF then Halt(t'.(anomalies := t'.anomalies + [HALT_NOTE])) else Continue(t')
    case _ =>
      Continue(t.(anomalies := t.anomalies + VendorNotes(v, o)))
  }

  /** The loop from vendor `k` on, with tally `t` so far. */
  function RunFrom(p: Plan, k: nat, t: Tally): (r: RunResult)
    requires p.Valid() && k <= |p.vendors|
    ensures k <= r.handled <= |p.vendors|
    ensures r.tally.sent - t.sent == |r.tally.log| - |t.log| <= r.handled - k
    decreases |p.vendors| - k
  {
    if k == |p.vendors| then RunResult(t, Exhausted, k)
    else
      match Step(p, k, t)
      case Continue(t') => RunFrom(p, k + 1, t')
      case Halt(t') => RunResult(t', Cutoff, k + 1)
      case Crash => RunResult(t, EmptyPool, k)
  }

  /** The whole run, from an empty tally. */
  function Run(inp: Inputs): RunResult
    requires inp.WellFormed()
  {
    RunFrom(PlanOf(inp), 0, Tally(0, [], []))
  }

  // ---------------------------------------------------------------------
  // One vendor's effect on the run
  // ---------------------------------------------------------------------

  /** A vendor without a valid email adds exactly one anomaly, sends nothing, and the run goes on. */
  lemma InvalidEmailSkips(inp: Inputs, k: nat, t: Tally)
    requires inp.WellFormed() && k < |inp.vendors|
    requires !ValidEmail(inp.vendors[k].email)
    ensures RunFrom(PlanOf(inp), k, t)
         == RunFrom(PlanOf(inp), k + 1, t.(anomalies := t.anomalies + [InvalidEmailNote(inp.vendors[k].name)]))
  {
    assert PlanOf(inp).outcomes[k] == InvalidEmail;
  }

  /**
    A vendor with a valid email but no matching PDF adds exactly one
    anomaly, sends nothing, and the run goes on without a cutoff check.
   */
  lemma NoDocumentsSkips(inp: Inputs, k: nat, t: Tally)
    requires inp.WellFormed() && k < |inp.vendors|
    requires ValidEmail(inp.vendors[k].email)
    requires Matches(inp.u, Normalize(inp.u, inp.vendors[k].name), inp.listing) == []
    ensures RunFrom(PlanOf(inp), k, t)
         == RunFrom(PlanOf(inp), k + 1, t.(anomalies := t.anomalies + [NoPdfNote(inp.vendors[k].name)]))
  {
    assert PlanOf(inp).outcomes[k] == NoDocuments;
  }

  /** A vendor that would be sent a message with an empty template or subject pool aborts the run. */
  lemma EmptyPoolAborts(inp: Inputs, k: nat, t: Tally)
    requires inp.WellFormed() && k < |inp.vendors|
    requires ValidEmail(inp.vendors[k].email)
    requires Matches(inp.u, Normalize(inp.u, inp.vendors[k].name), inp.listing) != []
    requires inp.PoolsEmpty()
    ensures RunFrom(PlanOf(inp), k, t) == RunResult(t, EmptyPool, k)
  {
    assert PlanOf(inp).outcomes[k].Deliver?;
  }

  /**
    A vendor with a valid email and matching PDFs is sent one message
    carrying every match, the counter goes up by one, a count anomaly is
    added exactly when more than one PDF matched, and then the cutoff is
    checked: past 17:30:00 the halt anomaly is added last and no later
    vendor is looked at.
   */
  lemma SendCounts(inp: Inputs, k: nat, t: Tally)
    requires inp.WellFormed() && k < |inp.vendors|
    requires ValidEmail(inp.vendors[k].email)
    requires Matches(inp.u, Normalize(inp.u, inp.vendors[k].name), inp.listing) != []
    requires !inp.PoolsEmpty()
    ensures
      var v := inp.vendors[k];
      var paths := Paths(Matches(inp.u, Normalize(inp.u, v.name), inp.listing));
      var notes := if |paths| > 1 then [ManyPdfNote(v.name, |paths|)] else [];
      var t' := Tally(t.sent + 1, t.anomalies + notes, t.log + [Send(v, paths, inp.picks[k])]);
      RunFrom(PlanOf(inp), k, t)
        == if inp.clock[k] > CUTOFF then RunResult(t'.(anomalies := t'.anomalies + [HALT_NOTE]), Cutoff, k + 1)
           else RunFrom(PlanOf(inp), k + 1, t')
  {
    var v, p := inp.vendors[k], PlanOf(inp);
    var paths := Paths(Matches(inp.u, Normalize(inp.u, v.name), inp.listing));
    assert p.outcomes[k] == Deliver(paths);
    var t' := Tally(t.sent + 1, t.anomalies + VendorNotes(v, Deliver(paths)), t.log + [Send(v, paths, inp.picks[k])]);
    assert Step(p, k, t) == if inp.clock[k] > CUTOFF then Halt(t'.(anomalies := t'.anomalies + [HALT_NOTE])) else Continue(t');
  }

  // ---------------------------------------------------------------------
  // The run as a whole
  // ---------------------------------------------------------------------

  /** Vendor `k` is sent a message, the clock then reads past 17:30:00, and the run stops. */
  predicate Halts(p: Plan, k: nat)
    requires p.Valid() && k < |p.vendors|
  {
    p.outcomes[k].Deliver? && !p.poolsEmpty && p.clock[k] > CUTOFF
  }

  /** Vendor `k` would be sent a message but a pool is empty: `random.choice` raises. */
  predicate Crashes(p: Plan, k: nat)
    requires p.Valid() && k < |p.vendors|
  {
    p.outcomes[k].Deliver? && p.poolsEmpty
  }

  /** The sends to the first `n` vendors, in vendor order, as if none of them stopped the run. */
  function SendsUpTo(p: Plan, n: nat): seq<Send>
    requires p.Valid() && n <= |p.vendors|
  {
    if n == 0 then []
    else
      match p.outcomes[n - 1]
      case Deliver(paths) =>
        if p.poolsEmpty then SendsUpTo(p, n - 1)
        else SendsUpTo(p, n - 1) + [Send(p.vendors[n - 1], paths, p.picks[n - 1])]
      case _ => SendsUpTo(p, n - 1)
  }

  /** The anomalies of the first `n` vendors, in vendor order, without the cutoff note. */
  function NotesUpTo(p: Plan, n: nat): seq<string>
    requires p.Valid() && n <= |p.vendors|
  {
    if n == 0 then [] else NotesUpTo(p, n - 1) + VendorNotes(p.vendors[n - 1], p.outcomes[n - 1])
  }

  /** The tally after the first `n` vendors. */
  function TallyUpTo(p: Plan, n: nat): Tally
    requires p.Valid() && n <= |p.vendors|
  {
    Tally(|SendsUpTo(p, n)|, NotesUpTo(p, n), SendsUpTo(p, n))
  }

  /** Every vendor that is delivered to has a valid address and at least one PDF. */
  predicate Sound(p: Plan)
    requires p.Valid()
  {
    forall k :: 0 <= k < |p.vendors| && p.outcomes[k].Deliver? ==>
      ValidEmail(p.vendors[k].email) && p.outcomes[k].paths != []
  }

  /** Classification only delivers to a valid address with at least one PDF. */
  lemma PlanOfSound(inp: Inputs)
    requires inp.WellFormed()
    ensures Sound(PlanOf(inp))
  {
    forall k | 0 <= k < |inp.vendors|
      ensures PlanOf(inp).outcomes[k].Deliver? ==>
        ValidEmail(inp.vendors[k].email) && PlanOf(inp).outcomes[k].paths != []
    {
      ClassifyCases(inp.u, inp.listing, inp.vendors[k]);
    }
  }

  /**
    No more sends than vendors, and every send is the one of some vendor
    before `n` whose outcome was a delivery: to that vendor, with exactly
    its matched PDFs and its own draws. Every send goes to a valid address,
    carries at least one PDF, and happens only with both pools non-empty.
   */
  lemma {:induction false} SendsAreValid(p: Plan, n: nat)
    requires p.Valid() && Sound(p) && n <= |p.vendors|
    ensures |SendsUpTo(p, n)| <= n
    ensures forall s :: s in SendsUpTo(p, n) ==>
      && ValidEmail(s.vendor.email) && s.paths != [] && !p.poolsEmpty
      && exists k :: 0 <= k < n && p.outcomes[k].Deliver? && s == Send(p.vendors[k], p.outcomes[k].paths, p.picks[k])
  {
    if n > 0 {
      SendsAreValid(p, n - 1);
      forall s | s in SendsUpTo(p, n)
        ensures exists k :: 0 <= k < n && p.outcomes[k].Deliver? && s == Send(p.vendors[k], p.outcomes[k].paths, p.picks[k])
      {
        if s !in SendsUpTo(p, n - 1) {
          assert s == Send(p.vendors[n - 1], p.outcomes[n - 1].paths, p.picks[n - 1]);
        }
      }
    }
  }

  /** The vendors among the first `n` that were sent a message, in vendor order. */
  function SendersUpTo(p: Plan, n: nat): seq<nat>
    requires p.Valid() && n <= |p.vendors|
  {
    if n == 0 then []
    else if p.outcomes[n - 1].Deliver? && !p.poolsEmpty then SendersUpTo(p, n - 1) + [n - 1]
    else SendersUpTo(p, n - 1)
  }

  /**
    At most one send per vendor: the sends line up, one to one and in
    order, with strictly increasing vendor positions, each send being the
    one of the vendor at its position.
   */
  lemma {:induction false} OneSendPerVendor(p: Plan, n: nat)
    requires p.Valid() && n <= |p.vendors|
    ensures |SendersUpTo(p, n)| == |SendsUpTo(p, n)|
    ensures forall i, j :: 0 <= i < j < |SendersUpTo(p, n)| ==> SendersUpTo(p, n)[i] < SendersUpTo(p, n)[j]
    ensures forall i :: 0 <= i < |SendersUpTo(p, n)| ==>
      var k := SendersUpTo(p, n)[i];
      && k < n && p.outcomes[k].Deliver?
      && SendsUpTo(p, n)[i] == Send(p.vendors[k], p.outcomes[k].paths, p.picks[k])
  {
    if n > 0 {
      OneSendPerVendor(p, n - 1);
      var before, sends := SendersUpTo(p, n - 1), SendsUpTo(p, n - 1);
      if p.outcomes[n - 1].Deliver? && !p.poolsEmpty {
        assert SendersUpTo(p, n) == before + [n - 1];
        assert SendsUpTo(p, n) == sends + [Send(p.vendors[n - 1], p.outcomes[n - 1].paths, p.picks[n - 1])];
      } else {
        assert SendersUpTo(p, n) == before;
        assert SendsUpTo(p, n) == sends;
      }
    }
  }

  /**
    Where the run goes after one iteration: a crash ends it on that vendor,
    a halt right after it, and otherwise it goes on with the next vendor.
   */
  lemma StepKind(p: Plan, k: nat, t: Tally)
    requires p.Valid() && k < |p.vendors|
    ensures Crashes(p, k) ==> RunFrom(p, k, t) == RunResult(t, EmptyPool, k)
    ensures Halts(p, k) ==> RunFrom(p, k, t) == RunResult(Step(p, k, t).tally, Cutoff, k + 1)
    ensures !Crashes(p, k) && !Halts(p, k) ==> RunFrom(p, k, t) == RunFrom(p, k + 1, Step(p, k, t).tally)
  {
  }

  /** One vendor moves the tally from its prefix value to the next one. */
  lemma StepExtendsTally(p: Plan, k: nat)
    requires p.Valid() && k < |p.vendors|
    ensures Crashes(p, k) ==> Step(p, k, TallyUpTo(p, k)).Crash?
    ensures Halts(p, k) ==>
      Step(p, k, TallyUpTo(p, k)) == Halt(TallyUpTo(p, k + 1).(anomalies := NotesUpTo(p, k + 1) + [HALT_NOTE]))
    ensures !Crashes(p, k) && !Halts(p, k) ==> Step(p, k, TallyUpTo(p, k)) == Continue(TallyUpTo(p, k + 1))
  {
    var v, o := p.vendors[k], p.outcomes[k];
    assert NotesUpTo(p, k + 1) == NotesUpTo(p, k) + VendorNotes(v, o);
    if !o.Deliver? || p.poolsEmpty {
      assert SendsUpTo(p, k + 1) == SendsUpTo(p, k);
    } else {
      assert SendsUpTo(p, k + 1) == SendsUpTo(p, k) + [Send(v, o.paths, p.picks[k])];
    }
  }

  /** The run from the prefix tally of vendor `k`, in terms of the prefix tally of vendor `k + 1`. */
  lemma RunFromPrefix(p: Plan, k: nat)
    requires p.Valid() && k < |p.vendors|
    ensures Crashes(p, k) ==> RunFrom(p, k, TallyUpTo(p, k)) == RunResult(TallyUpTo(p, k), EmptyPool, k)
    ensures Halts(p, k) ==>
      RunFrom(p, k, TallyUpTo(p, k))
        == RunResult(TallyUpTo(p, k + 1).(anomalies := NotesUpTo(p, k + 1) + [HALT_NOTE]), Cutoff, k + 1)
    ensures !Crashes(p, k) && !Halts(p, k) ==> RunFrom(p, k, TallyUpTo(p, k)) == RunFrom(p, k + 1, TallyUpTo(p, k + 1))
  {
    StepExtendsTally(p, k);
    StepKind(p, k, TallyUpTo(p, k));
  }

  /** The run's log holds one send per delivered vendor it handled, in load order, and the counter is its size. */
  lemma {:induction false} RunFromLog(p: Plan, k: nat)
    requires p.Valid() && k <= |p.vendors|
    ensures
      var r := RunFrom(p, k, TallyUpTo(p, k));
      r.tally.log == SendsUpTo(p, r.handled) && r.tally.sent == |r.tally.log|
    decreases |p.vendors| - k
  {
    var r := RunFrom(p, k, TallyUpTo(p, k));
    if k == |p.vendors| {
      assert r.handled == k && r.tally == TallyUpTo(p, k);
    } else {
      RunFromPrefix(p, k);
      if Crashes(p, k) {
        assert r.handled == k && r.tally == TallyUpTo(p, k);
      } else if Halts(p, k) {
        assert r.handled == k + 1 && r.tally.log == TallyUpTo(p, k + 1).log;
        assert r.tally.sent == TallyUpTo(p, k + 1).sent;
      } else {
        RunFromLog(p, k + 1);
      }
    }
  }

  /**
    The run's anomalies are those of the vendors it handled, vendor by
    vendor in load order, followed by the cutoff note exactly when the
    cutoff stopped it.
   */
  lemma {:induction false} RunFromNotes(p: Plan, k: nat)
    requires p.Valid() && k <= |p.vendors|
    ensures
      var r := RunFrom(p, k, TallyUpTo(p, k));
      r.tally.anomalies == NotesUpTo(p, r.handled) + (if r.ending == Cutoff then [HALT_NOTE] else [])
    decreases |p.vendors| - k
  {
    var r := RunFrom(p, k, TallyUpTo(p, k));
    if k == |p.vendors| {
      assert r.handled == k && r.ending == Exhausted && r.tally == TallyUpTo(p, k);
      assert NotesUpTo(p, k) + [] == NotesUpTo(p, k);
    } else {
      RunFromPrefix(p, k);
      if Crashes(p, k) {
        assert r.handled == k && r.ending == EmptyPool && r.tally == TallyUpTo(p, k);
        assert NotesUpTo(p, k) + [] == NotesUpTo(p, k);
      } else if Halts(p, k) {
        assert r.handled == k + 1 && r.ending == Cutoff;
        assert r.tally.anomalies == NotesUpTo(p, k + 1) + [HALT_NOTE];
      } else {
        RunFromNotes(p, k + 1);
      }
    }
  }

  /** The first vendor from `k` on that halts or crashes the run, or the vendor count when none does. */
  function FirstStop(p: Plan, k: nat): (j: nat)
    requires p.Valid() && k <= |p.vendors|
    ensures k <= j <= |p.vendors|
    decreases |p.vendors| - k
  {
    if k == |p.vendors| || Crashes(p, k) || Halts(p, k) then k else FirstStop(p, k + 1)
  }

  /** No vendor before the first stop halts or crashes, and the first stop does one or the other. */
  lemma {:induction false} FirstStopIsFirst(p: Plan, k: nat)
    requires p.Valid() && k <= |p.vendors|
    ensures forall i :: k <= i < FirstStop(p, k) ==> !Crashes(p, i) && !Halts(p, i)
    ensures FirstStop(p, k) < |p.vendors| ==> Crashes(p, FirstStop(p, k)) || Halts(p, FirstStop(p, k))
    decreases |p.vendors| - k
  {
    if k < |p.vendors| && !Crashes(p, k) && !Halts(p, k) {
      FirstStopIsFirst(p, k + 1);
    }
  }

  /**
    Where the run stops: after the last vendor when none stops it, on the
    first stopping vendor when it crashes, right after it when it halts.
   */
  lemma {:induction false} RunFromStops(p: Plan, k: nat, t: Tally)
    requires p.Valid() && k <= |p.vendors|
    ensures
      var r := RunFrom(p, k, t);
      var j := FirstStop(p, k);
      && (j == |p.vendors| ==> r.ending == Exhausted && r.handled == j)
      && (j < |p.vendors| && Crashes(p, j) ==> r.ending == EmptyPool && r.handled == j)
      && (j < |p.vendors| && !Crashes(p, j) ==> r.ending == Cutoff && r.handled == j + 1)
    decreases |p.vendors| - k
  {
    var r, j := RunFrom(p, k, t), FirstStop(p, k);
    if k == |p.vendors| {
      assert j == k && r.ending == Exhausted && r.handled == k;
    } else {
      StepKind(p, k, t);
      if Crashes(p, k) {
        assert j == k && r.ending == EmptyPool && r.handled == k;
      } else if Halts(p, k) {
        assert j == k && r.ending == Cutoff && r.handled == k + 1;
      } else {
        assert j == FirstStop(p, k + 1);
        RunFromStops(p, k + 1, Step(p, k, t).tally);
      }
    }
  }

  /**
    The counter never exceeds the number of vendors handled, which never
    exceeds the number of vendors; the counter is the number of messages
    sent, and the log is in run order.
   */
  lemma RunCounts(inp: Inputs)
    requires inp.WellFormed()
    ensures
      var r := Run(inp);
      && r.tally.log == SendsUpTo(PlanOf(inp), r.handled)
      && r.tally.sent == |r.tally.log|
      && r.tally.sent <= r.handled <= |inp.vendors|
      && r.tally.anomalies == NotesUpTo(PlanOf(inp), r.handled) + (if r.ending == Cutoff then [HALT_NOTE] else [])
  {
    var p := PlanOf(inp);
    assert TallyUpTo(p, 0) == Tally(0, [], []);
    RunFromLog(p, 0);
    RunFromNotes(p, 0);
  }

  /**
    Every send of the run is to a loaded vendor with a valid address,
    carries at least one PDF, and has draws taken from both pools.
   */
  lemma RunSendsValid(inp: Inputs)
    requires inp.WellFormed()
    ensures forall s :: s in Run(inp).tally.log ==>
      s.vendor in inp.vendors && ValidEmail(s.vendor.email) && s.paths != [] && Drawn(inp.cfg, s.pick)
  {
    var p := PlanOf(inp);
    RunCounts(inp);
    PlanOfSound(inp);
    SendsAreValid(p, Run(inp).handled);
  }

  /**
    The messages handed to the mail client: one per counted send, in order,
    each to a vendor's valid address, with the vendor's PDFs attached, a
    subject from the subject pool and a body rendered from a template of
    the template pool.
   */
  lemma RunOutbox(inp: Inputs)
    requires inp.WellFormed()
    ensures
      var r := Run(inp);
      var out := Messages(inp.cfg, r.tally.log);
      && |out| == r.tally.sent
      && forall k :: 0 <= k < |out| ==>
           var s := r.tally.log[k];
           && out[k].to == s.vendor.email && ValidEmail(out[k].to)
           && out[k].attachments == s.paths && out[k].attachments != []
           && out[k].subject in inp.cfg.subjects
           && s.pick.template in inp.cfg.templates
           && out[k].body == Html(Render(s.pick.template, s.vendor.name, inp.cfg.advisor, inp.cfg.advisorEmail))
  {
    var log := Run(inp).tally.log;
    RunCounts(inp);
    RunSendsValid(inp);
    forall k | 0 <= k < |log|
      ensures log[k] in log
    {
    }
  }

  /** The cutoff note is never a vendor anomaly: every vendor anomaly ends in a different character pair. */
  lemma NoteIsNotHalt(v: Vendor, o: Outcome)
    ensures HALT_NOTE !in VendorNotes(v, o)
  {
    assert HALT_NOTE[|HALT_NOTE| - 2] == ')';
    match o
    case InvalidEmail =>
      var n := InvalidEmailNote(v.name);
      assert n[|n| - 2] == 'o';
    case NoDocuments =>
      var n := NoPdfNote(v.name);
      assert n[|n| - 2] == 'r';
    case Deliver(paths) =>
      if |paths| > 1 {
        var n := ManyPdfNote(v.name, |paths|);
        assert n[|n| - 2] == 'F';
      }
  }

  lemma {:induction false} HaltNotInNotes(p: Plan, n: nat)
    requires p.Valid() && n <= |p.vendors|
    ensures HALT_NOTE !in NotesUpTo(p, n)
  {
    if n > 0 {
      HaltNotInNotes(p, n - 1);
      NoteIsNotHalt(p.vendors[n - 1], p.outcomes[n - 1]);
    }
  }

  /**
    The cutoff note appears in the log exactly when the cutoff stopped the
    run, and then it is the last anomaly.
   */
  lemma HaltNoteOnlyAtEnd(inp: Inputs)
    requires inp.WellFormed()
    ensures
      var a := Run(inp).tally.anomalies;
      && (HALT_NOTE in a <==> Run(inp).ending == Cutoff)
      && (Run(inp).ending == Cutoff ==> a[|a| - 1] == HALT_NOTE)
  {
    RunCounts(inp);
    HaltNotInNotes(PlanOf(inp), Run(inp).handled);
  }

  /**
    The run ends after every vendor, at the first vendor sent a message
    past 17:30:00, or at the first vendor to be sent a message with an
    empty pool; never in between.
   */
  lemma RunStops(inp: Inputs)
    requires inp.WellFormed()
    ensures
      var r, p := Run(inp), PlanOf(inp);
      && (forall j :: 0 <= j < r.handled ==> !Crashes(p, j))
      && (forall j :: 0 <= j < r.handled - 1 ==> !Halts(p, j))
      && (r.ending == Exhausted <==> r.handled == |inp.vendors| && forall j :: 0 <= j < r.handled ==> !Halts(p, j))
      && (r.ending == Cutoff ==> 0 < r.handled && Halts(p, r.handled - 1))
      && (r.ending == EmptyPool ==> r.handled < |inp.vendors| && Crashes(p, r.handled))
  {
    RunFromStops(PlanOf(inp), 0, Tally(0, [], []));
    FirstStopIsFirst(PlanOf(inp), 0);
  }

  /**
    Three vendors: the first has a valid email and exactly one PDF and is
    sent its message before 17:30, the second has an invalid email, the
    third has no PDF. One message goes out, and the log holds the second's
    and the third's notes, in that order.
   */
  lemma ThreeVendorRun(inp: Inputs)
    requires inp.WellFormed() && |inp.vendors| == 3 && !inp.PoolsEmpty()
    requires Classify(inp.u, inp.listing, inp.vendors[0]).Deliver?
    requires |Classify(inp.u, inp.listing, inp.vendors[0]).paths| == 1
    requires inp.clock[0] <= CUTOFF
    requires !ValidEmail(inp.vendors[1].email)
    requires Classify(inp.u, inp.listing, inp.vendors[2]) == NoDocuments
    ensures Run(inp).ending == Exhausted
    ensures Run(inp).tally.sent == 1
    ensures Run(inp).tally.anomalies == [InvalidEmailNote(inp.vendors[1].name), NoPdfNote(inp.vendors[2].name)]
  {
    var p := PlanOf(inp);
    var t0 := Tally(0, [], []);
    var t1 := Tally(1, [], [Send(p.vendors[0], p.outcomes[0].paths, p.picks[0])]);
    var t2 := t1.(anomalies := [InvalidEmailNote(inp.vendors[1].name)]);
    var t3 := t2.(anomalies := t2.anomalies + [NoPdfNote(inp.vendors[2].name)]);
    assert Step(p, 0, t0) == Continue(t1);
    assert p.outcomes[1] == InvalidEmail;
    assert Step(p, 1, t1) == Continue(t2);
    assert p.outcomes[2] == NoDocuments;
    assert Step(p, 2, t2) == Continue(t3);
    assert RunFrom(p, 2, t2) == RunFrom(p, 3, t3) == RunResult(t3, Exhausted, 3);
    assert RunFrom(p, 1, t1) == RunFrom(p, 2, t2);
    assert RunFrom(p, 0, t0) == RunFrom(p, 1, t1);
  }

  /**
    One pass of the loop body on vendor `i`: validate the email, locate the
    PDFs, and when there are some, draw a template and a subject, compose
    the message, count it, note a multi-PDF send and read the clock. The
    message handed to the mail client is `mail`; `send` is what the run
    records of it.
   */
  method Visit(inp: Inputs, i: nat, t: Tally) returns (next: Next, send: Option<Send>, mail: Option<Mail>)
    requires inp.WellFormed() && i < |inp.vendors|
    ensures next == Step(PlanOf(inp), i, t)
    ensures !next.Crash? ==> next.tally.log == t.log + (if send.Some? then [send.value] else [])
    ensures send.Some? ==> mail == Some(Compose(inp.cfg, send.value))
    ensures send.Some? ==> mail.Some? && Messages(inp.cfg, t.log + [send.value]) == Messages(inp.cfg, t.log) + [mail.value]
    ensures send.None? ==> mail.None?
  {
    send, mail := None, None;
    var v := inp.vendors[i];
    if !ValidEmail(v.email) {
      assert PlanOf(inp).outcomes[i] == InvalidEmail;
      return Continue(t.(anomalies := t.anomalies + [InvalidEmailNote(v.name)])), send, mail;
    }
    var key := Normalize(inp.u, v.name);
    var found := FindPdfs(inp.u, key, inp.listing);
    ghost var matches := Matches(inp.u, key, inp.listing);
    assert |found| == |matches|;
    if found == [] {
      assert PlanOf(inp).outcomes[i] == NoDocuments;
      return Continue(t.(anomalies := t.anomalies + [NoPdfNote(v.name)])), send, mail;
    }
    assert PlanOf(inp).outcomes[i] == Deliver(found);
    if inp.cfg.templates == [] || inp.cfg.subjects == [] {
      return Crash, send, mail;
    }
    var s := Send(v, found, inp.picks[i]);
    send, mail := Some(s), Some(Compose(inp.cfg, s));
    MessagesSnoc(inp.cfg, t.log, s);
    var notes := if |found| > 1 then [ManyPdfNote(v.name, |found|)] else [];
    var t' := Tally(t.sent + 1, t.anomalies + notes, t.log + [s]);
    if inp.clock[i] > CUTOFF {
      next := Halt(t'.(anomalies := t'.anomalies + [HALT_NOTE]));
    } else {
      next := Continue(t');
    }
  }

  /**
    The loop as the mailer runs it: `continue` past a skipped vendor,
    `break` at the cutoff, and an abort where `random.choice` would raise.
   */
  method DispatchAll(inp: Inputs)
    returns (sent: nat, anomalies: seq<string>, log: seq<Send>, outbox: seq<Mail>, ending: Ending, handled: nat)
    requires inp.WellFormed()
    ensures RunResult(Tally(sent, anomalies, log), ending, handled) == Run(inp)
    ensures outbox == Messages(inp.cfg, log)
  {
    sent, anomalies, log, outbox, ending, handled := 0, [], [], [], Exhausted, 0;
    var i := 0;
    while i < |inp.vendors|
      invariant 0 <= i <= |inp.vendors|
      invariant ending == Exhausted
      invariant RunFrom(PlanOf(inp), i, Tally(sent, anomalies, log)) == Run(inp)
      invariant outbox == Messages(inp.cfg, log)
      decreases |inp.vendors| - i
    {
      var next, send, mail := Visit(inp, i, Tally(sent, anomalies, log));
      if next.Crash? {
        ending, handled := EmptyPool, i;
        return;
      }
      if send.Some? {
        outbox := outbox + [mail.value];
      }
      sent, anomalies, log := next.tally.sent, next.tally.anomalies, next.tally.log;
      if next.Halt? {
        ending, handled := Cutoff, i + 1;
        return;
      }
      i := i + 1;
    }
    handled := |inp.vendors|;
  }
}
