# Withholding-certificate mailer, modelled in Dafny

`send-mail.py` mails each vendor listed in a spreadsheet the PDF
withholding certificates that belong to it, then mails a closing report.
For each vendor, in spreadsheet order, the script:

- checks the email address;
- normalizes the vendor's name into a key (`normalizar`: NFKD, drop
  non-ASCII, drop `' '`, upper-case);
- collects every PDF in the document directory whose upper-cased name
  starts with that key;
- fills a randomly drawn HTML template (three placeholders) and sends one
  message with every match attached;
- records anomalies: invalid email, no PDF, more than one PDF.

After each send it reads the clock and stops for the day once it is past
17:30:00. The report lists the sent counter and every anomaly in order.

This project models that logic without its I/O.

| module (file) | what it models | form |
|---|---|---|
| `Text` (`text.dfy`) | the pieces of Python's `str` the script uses: `startswith`, `endswith`, `in`, `replace`, `strip`, `"\n".join`, f-string rendering of an `int` | functions and lemmas |
| `Normalizer` (`normalizer.dfy`) | `normalizar` | functions and lemmas |
| `Locator` (`locator.dfy`) | the PDF search loop | a predicate, a specification function and a `while` loop proved against it |
| `Vendors` (`vendors.dfy`) | the row filter that builds the vendor list | a specification function and a loop proved against it |
| `Templates` (`templates.dfy`) | the three chained placeholder replacements | a function and lemmas |
| `Dispatch` (`dispatch.dfy`) | the dispatch loop | a tail-recursive run function `RunFrom`, and the loop (`continue`, an early `return` for `break`) proved against it |
| `Report` (`report.dfy`) | the report builder | a specification function and a loop proved against it |
| `Script` (`script.dfy`) | the script end to end | a method chaining loader, loop and report |

## How the outside world enters the model

- **Unicode tables.** They are a parameter `u: Unicode`, which holds a
  per-character NFKD decomposition and a per-character `str.upper()`. The
  subset type constrains only what Unicode fixes for ASCII: an ASCII
  character decomposes to itself, and upper-casing it changes only
  `a`..`z`.
- **Directory listing.** It is a `seq<string>`, in the order `os.listdir`
  returns it.
- **Clock.** `datetime.now()` becomes `clock[k]`, the time of day in
  microseconds since midnight, read right after vendor `k`'s send. The
  cutoff is `17:30:00.000000`, compared with a strict `>`, as the source
  compares the full datetime.
- **Random draws.** The two `random.choice` draws become `picks[k]`: the
  template and the subject drawn for vendor `k`, each an element of its
  pool when the pool is not empty.
- **Sends.** The run records each send as a `Send` event: the vendor, the
  matched paths and the draws. The message handed to the mail client is a
  `Mail` value composed from that event and appended to an outbox.

## Behaviour to note

- `normalizar` removes only the space character `' '`. Tabs and the other
  ASCII whitespace characters stay in the key (`NormalizeKeepsTab`). Other
  whitespace is left to the Unicode tables: NFKD turns some of it into
  `' '`, and the ASCII filter drops the rest.
- A listing entry is only upper-cased before the prefix test, not
  normalized. A file name with a space or an accent inside the part that
  should equal the key therefore never matches; one after that part does
  not matter (`ACME 2024.pdf` matches the key `ACME`).
- Matches come out in listing order, not sorted (`MatchesAppend`).
- The pools are not checked before `random.choice`.
  - An empty template or subject pool raises at the first vendor that would
    be sent a message.
  - The script dies there and sends no report (ending `EmptyPool`).
  - Vendors skipped before that point are unaffected.

## Model

| member | source | states |
|---|---|---|
| Normalizer.Normalize | send-mail.py:30-33 | the key holds only ASCII characters, no `' '`, and no lower-case letter |
| Normalizer.NormalizeKey | send-mail.py:30-33 | a string already in key form normalizes to itself |
| Normalizer.NormalizeIdempotent | send-mail.py:30-33 | normalizing twice equals normalizing once |
| Normalizer.NormalizeAppend | send-mail.py:30-33 | normalization works character by character: it distributes over concatenation |
| Normalizer.NormalizeAccented | send-mail.py:30-33 | a character decomposing into an ASCII base plus non-ASCII marks becomes its upper-cased base letter |
| Normalizer.NormalizeAsciiChar | send-mail.py:30-33 | an ASCII character other than `' '` survives upper-cased; `' '` disappears |
| Normalizer.NormalizeKeepsTab | send-mail.py:33 | a tab is not removed: only `' '` is |
| Normalizer.AsciiOnlyChars | send-mail.py:32 | the ASCII filter keeps exactly the ASCII characters of its input |
| Normalizer.RemoveSpacesChars | send-mail.py:33 | space removal keeps exactly the characters other than `' '` |
| Normalizer.UpperAscii | send-mail.py:33 | upper-casing an ASCII string keeps its length and maps each character to its ASCII upper case |
| Text.AsciiUpperChar | send-mail.py:33 | ASCII upper-casing sends each letter `a`..`z` to the capital at the same place in the alphabet, leaves every other character alone, and yields no lower-case letter |
| Locator.IsPdfMatch | send-mail.py:111-114 | a matching entry is at least as long as the key and as `.PDF`; for an ASCII name this holds of the name itself |
| Locator.MatchesMembers | send-mail.py:108-115 | an entry is found iff it is in the listing, its upper-cased name ends with `.PDF` and starts with the key |
| Locator.Matches | send-mail.py:108-115 | no more matches than listing entries |
| Locator.MatchesAppend | send-mail.py:110-115 | matches come out in listing order: scanning `a + b` finds `a`'s matches and then `b`'s |
| Locator.EmptyListingNoMatches | send-mail.py:110 | an empty listing yields no match |
| Locator.PrefixKeysShareFiles | send-mail.py:111-114 | a vendor whose key is a prefix of another's receives every file of the other |
| Locator.EmptyKeyMatchesEveryPdf | send-mail.py:111-114 | the empty key matches every PDF of the directory |
| Locator.Paths | send-mail.py:115 | one path per match, in order, each inside `PDF_DIR`, and the file name reads back from its path |
| Locator.MatchesDistinct | send-mail.py:110-115 | a listing without repeated names yields matches without repeats |
| Locator.PathsDistinct | send-mail.py:115 | distinct names give distinct paths, so no PDF is attached twice |
| Locator.FindPdfs | send-mail.py:108-115 | the search loop returns the path of every match, in listing order |
| Text.StripIsTrimmedInfix | send-mail.py:74-75 | `strip()` returns an infix that cuts off only whitespace and has none at either end |
| Text.StripIdempotent | send-mail.py:74-75 | stripping twice equals stripping once |
| Vendors.VendorOf | send-mail.py:72-76 | the record's name is the row's name cell stripped, its email the row's email cell stripped, or `""` when the cell is missing; both are their own `strip()` |
| Vendors.VendorsOf | send-mail.py:67-76 | no more vendors than rows |
| Vendors.VendorsOfMembers | send-mail.py:67-76 | every named row yields its record, and every record comes from a named row |
| Vendors.VendorsOfAppend | send-mail.py:67-76 | loading keeps row order: loading `a + b` is loading `a` and then `b` |
| Vendors.OneVendorPerNamedRow | send-mail.py:71-76 | exactly one vendor per row with a name: rows without a name are dropped, nothing else is |
| Vendors.LoadVendors | send-mail.py:67-76 | the loading loop builds exactly the vendor list of the rows |
| Text.ReplaceAll | send-mail.py:129-131 | `replace` leaves a string without the pattern unchanged, and replacing a pattern by itself changes nothing |
| Text.OccurrencesFound | send-mail.py:129-131 | `replace` finds no occurrence exactly when the string does not contain the pattern |
| Text.ReplaceFirst | send-mail.py:129-131 | text before the first occurrence is kept, the occurrence becomes the replacement, and the rest is replaced in turn |
| Text.ReplaceLength | send-mail.py:129-131 | each replaced occurrence changes the length by the difference of the two lengths |
| Templates.Render | send-mail.py:127-132 | a template without placeholders is sent verbatim |
| Templates.RenderFillsClient | send-mail.py:127-132 | a template holding the client placeholder once, and no other placeholder, gets the vendor's name in its place and is otherwise unchanged |
| Templates.RenderSubstitutesInsideName | send-mail.py:127-132 | the passes are chained: in a template that is just the client placeholder, a vendor name `c + ADVISOR_TOKEN + d` holding the advisor placeholder once renders to `c + advisor + d` |
| Templates.ReplaceWhole | send-mail.py:129-131 | a string that is exactly the pattern becomes exactly the replacement |
| Dispatch.Classify | send-mail.py:99-119 | the email is judged before the folder is searched; a delivery carries at least one path and no more than the folder holds |
| Dispatch.ClassifyCases | send-mail.py:99-119 | invalid email iff the address is empty or lacks `@`; no documents iff the email is valid and no entry matches; otherwise every match, at least one |
| Dispatch.InvalidEmailSkips | send-mail.py:99-101 | an invalid email adds exactly its one anomaly, sends nothing, leaves the counter, and the run goes on |
| Dispatch.NoDocumentsSkips | send-mail.py:117-119 | a vendor without a PDF adds exactly its one anomaly, sends nothing, and the run goes on without a cutoff check |
| Dispatch.EmptyPoolAborts | send-mail.py:124-125 | a vendor to be sent a message with an empty pool ends the run there, tally unchanged |
| Dispatch.SendCounts | send-mail.py:124-161 | a send adds one message with the drawn subject, the filled template and every match; it bumps the counter by one and adds a count anomaly iff more than one PDF matched; past 17:30:00 the halt note comes last and the run stops |
| Dispatch.Step | send-mail.py:93-161 | one iteration crashes exactly on a delivery with an empty pool and halts exactly on a delivery past 17:30:00, whatever the tally; a halt leaves the cutoff note last |
| Dispatch.StepKind | send-mail.py:92-161 | a crash ends the run on that vendor, a halt right after it, and otherwise the run goes on with the next vendor |
| Dispatch.StepExtendsTally | send-mail.py:92-161 | one vendor moves the tally from its prefix value to the next |
| Dispatch.RunFrom | send-mail.py:92-166 | the loop handles at most the remaining vendors, and the counter grows exactly as the send log does, by at most one per vendor handled |
| Dispatch.RunFromPrefix | send-mail.py:92-161 | from the tally of the vendors before it, a vendor crashes, halts with the next prefix tally plus the halt note, or continues with the next prefix tally |
| Dispatch.RunFromLog | send-mail.py:92-166 | the send log is one send per delivered vendor handled, in vendor order, and the counter is its size |
| Dispatch.RunFromNotes | send-mail.py:92-166 | the anomalies are the handled vendors' notes in vendor order, then the halt note exactly on a cutoff |
| Dispatch.FirstStopIsFirst | send-mail.py:124-161 | no vendor before the first stop halts or crashes, and the first stop does one or the other |
| Dispatch.RunFromStops | send-mail.py:92-166 | the run stops at the first vendor that halts or crashes, or after the last one |
| Dispatch.PlanOfSound | send-mail.py:99-119 | a vendor is delivered to only with a valid address and at least one PDF |
| Dispatch.SendsAreValid | send-mail.py:99-145 | no more sends than vendors; each send is that of a delivered vendor, with exactly its matched PDFs and its own draws, to a valid address, with at least one PDF, and both pools non-empty |
| Dispatch.OneSendPerVendor | send-mail.py:92-143 | at most one send per vendor: the sends match one to one, in order, a strictly increasing list of delivered vendors, each send being that vendor's |
| Dispatch.RunSendsValid | send-mail.py:99-145 | every send of a run is to a loaded vendor with an address holding `@`, carries at least one PDF, and draws from both pools |
| Dispatch.Compose | send-mail.py:134-142 | a message goes to the vendor's address under the drawn subject with every match attached; its HTML body is the template itself when the template has no placeholder |
| Dispatch.MessagesSnoc | send-mail.py:134-143 | one more send appends its own message to the outbox |
| Dispatch.RunOutbox | send-mail.py:124-145 | one message per counted send, each to the vendor's valid address, with its PDFs, a pooled subject and a body rendered from a pooled template |
| Dispatch.RunCounts | send-mail.py:92-166 | counter = messages sent <= vendors handled <= vendors; anomalies in run order |
| Dispatch.NoteIsNotHalt | send-mail.py:100-160 | no vendor anomaly equals the halt note |
| Dispatch.HaltNotInNotes | send-mail.py:100-151 | vendor anomalies never contain the halt note |
| Dispatch.HaltNoteOnlyAtEnd | send-mail.py:156-161 | the halt note is logged iff the cutoff stopped the run, and then it is the last anomaly |
| Dispatch.RunStops | send-mail.py:156-161 | the run ends after every vendor, at the first send past 17:30, or at the first send with an empty pool; no later vendor is looked at |
| Dispatch.ThreeVendorRun | send-mail.py:92-166 | valid+1 PDF, invalid email, no PDF: one send, and the two notes in vendor order |
| Dispatch.Visit | send-mail.py:93-161 | one pass of the loop body performs exactly the run function's step for that vendor; the message it hands over is composed from the send it records |
| Dispatch.DispatchAll | send-mail.py:92-166 | the loop with `continue` and `break` computes exactly the run function's counter, anomalies, send log and ending, and hands over exactly the log's messages |
| Text.NatToDecimal | send-mail.py:173 | an int renders as non-empty decimal digits, without a leading zero except for 0 (the counter here, and the PDF count of the multi-PDF note) |
| Text.DecimalRoundTrip | send-mail.py:173 | the rendered counter reads back as the counter |
| Text.JoinAppend | send-mail.py:184 | joining two non-empty lists is joining each and gluing them with the separator |
| Report.ReportLines | send-mail.py:171-182 | title first, counter second, closing last; between them the no-anomaly line alone, or the header and one `- ` bullet per anomaly, in order |
| Report.ReportText | send-mail.py:171-184 | the joined text opens with the title and counter lines and ends with the closing line |
| Report.BuildReport | send-mail.py:171-184 | the builder loop produces the joined report lines |
| Report.ReportRoundTrip | send-mail.py:171-182 | the counter and every anomaly, in order, can be read back from the report lines |
| Report.QuietReportText | send-mail.py:171-184 | the exact text with no anomaly, blank lines included |
| Report.BusyReportText | send-mail.py:171-184 | the exact text with anomalies: header, the joined bullets, closing |
| Script.ReportMail | send-mail.py:186-190 | the report goes to the fixed address under the fixed subject, as plain text without attachment, opening with the title and counter and ending with the closing line |
| Script.SendCertificates | send-mail.py:67-190 | load, loop, then a report to the fixed address with the fixed subject, unless the loop aborted |
| Script.ReportMatchesRun | send-mail.py:171-184 | the report shows the number of messages sent and the run's anomalies in order |

## Left out

- Outlook automation (`win32.Dispatch`, `CreateItem`, `Attachments.Add`, `Send`) is a foreign COM interface. A send is a `Mail` value in an outbox, and a failed send, which the source does not handle, is not modelled.
- pandas reading of the spreadsheet and the header clean-up are library I/O. Rows come in as pairs of optional strings, and `str()` of a non-text cell (a number, a date) is not modelled.
- Loading `data.json`, `subject.json` and the HTML templates is file I/O. The advisor identity and the pools are given in a `Config`.
- `os.listdir(PDF_DIR)` is read once per run. The source re-reads it for every vendor, so a directory changing mid-run is not modelled.
- `os.path.join` is modelled for a plain file name only (`PDF_DIR\name`). Windows drive-relative or absolute names in the listing are not modelled.
- `random.choice`, `random.uniform` and `time.sleep` are left out. The draws are injected values, and the pause between sends has no effect on what is sent.
- The `print` progress lines are console output.
- Python's Unicode tables (NFKD decomposition, full case mapping) are left out. The model takes them as a parameter constrained only on ASCII.
- `datetime.now()` is left out. The model takes one clock reading per vendor that is sent a message.
