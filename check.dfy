/**
 * The `check` command: a scan over the records of an already tokenised CSV
 * file that decides what the first record is, turns each data record into a
 * field map, counts the recipients and reports the malformed values line by
 * line, aborting the run on a structural error.
 *
 * Line numbers are record numbers (record `i` of the sequence is line
 * `i + 1`).  Whether an address is well formed is decided by an external
 * validator, passed in as `valid`.
 */
module SuppressionCheck {

  type Record = seq<string>

  /** The field names a data cell may be filed under. */
  const KnownFields: set<string> := {"recipient", "type", "description", "transactional", "non_transactional"}

  /** Why a run stops before the end of the file. */
  datatype AbortReason =
    | EmptyFirstRecord                // the first record has no cells: `r[0]` fails
    | MissingRecipientHeader          // the first record is neither a header nor a bare address
    | UnexpectedField(name: string)   // a non-empty cell under an unrecognised name
    | ShortRecord                     // a data record with fewer cells than the header: `r[i]` fails

  /** A per-line complaint; it never stops the scan. */
  datatype Diagnostic =
    | InvalidEmail(line: nat, address: string)
    | InvalidType(line: nat, value: string)
    | InvalidTransactional(line: nat, value: string)
    | InvalidNonTransactional(line: nat, value: string)

  /**
   * How a scan ends: stopped at a line, with the complaints printed before
   * it, or at the end of the file, with the count of recipients checked.
   */
  datatype CheckOutcome =
    | Aborted(line: nat, reason: AbortReason, diagnostics: seq<Diagnostic>)
    | Completed(addrsChecked: nat, diagnostics: seq<Diagnostic>)

  /** What the first record turns out to be. */
  datatype HeaderChoice = HeaderRow(names: seq<string>) | Headerless | HeaderRejected(reason: AbortReason)

  /** The field map of one data record, or the reason it stops the run. */
  datatype RowResult = RowOk(fields: map<string, string>) | RowAbort(reason: AbortReason)

  // ---------------------------------------------------------------------------
  // The first record
  // ---------------------------------------------------------------------------

  /** Whether the character `c` occurs in `s` (Python's `c in s` on a string). */
  predicate Contains(s: string, c: char) {
    exists i :: 0 <= i < |s| && s[i] == c
  }

  /**
   * A first record holding a cell exactly "recipient" is the header; one that
   * is a single cell holding an '@' is data under the header ["recipient"];
   * an empty one fails on `r[0]`; anything else is rejected.
   */
  function DecideHeader(r: Record): (h: HeaderChoice)
    ensures h.HeaderRow? <==> "recipient" in r
    ensures h.HeaderRow? ==> h.names == r
    ensures h.Headerless? <==> "recipient" !in r && |r| == 1 && Contains(r[0], '@')
    ensures h == HeaderRejected(EmptyFirstRecord) <==> r == []
    ensures h == HeaderRejected(MissingRecipientHeader) <==>
              "recipient" !in r && |r| > 0 && !(|r| == 1 && Contains(r[0], '@'))
  {
    if "recipient" in r then HeaderRow(r)
    else if |r| == 0 then HeaderRejected(EmptyFirstRecord)
    else if Contains(r[0], '@') && |r| == 1 then Headerless
    else HeaderRejected(MissingRecipientHeader)
  }

  // ---------------------------------------------------------------------------
  // The field map of one record
  // ---------------------------------------------------------------------------

  /** The field map built from the cells at header positions `0 .. n-1`, in order. */
  function ParsePrefix(hdr: seq<string>, r: Record, n: nat): RowResult
    requires n <= |hdr|
  {
    if n == 0 then RowOk(map[])
    else
      match ParsePrefix(hdr, r, n - 1)
      case RowAbort(e) => RowAbort(e)
      case RowOk(m) =>
        var i := n - 1;
        if i >= |r| then RowAbort(ShortRecord)
        else if r[i] == "" then RowOk(m)
        else if hdr[i] in KnownFields then RowOk(m[hdr[i] := r[i]])
        else RowAbort(UnexpectedField(hdr[i]))
  }

  /** The field map of record `r` under the header `hdr`. */
  function ParseRow(hdr: seq<string>, r: Record): RowResult {
    ParsePrefix(hdr, r, |hdr|)
  }

  /** Whether header position `i` stops the parse of `r`. */
  predicate CellProblem(hdr: seq<string>, r: Record, i: nat)
    requires i < |hdr|
  {
    i >= |r| || (r[i] != "" && hdr[i] !in KnownFields)
  }

  /** The reason position `i` stops the parse. */
  function ProblemReason(hdr: seq<string>, r: Record, i: nat): AbortReason
    requires i < |hdr|
  {
    if i >= |r| then ShortRecord else UnexpectedField(hdr[i])
  }

  /** Once the parse of a prefix has stopped, longer prefixes stop for the same reason. */
  lemma {:induction false} ParseAbortPersists(hdr: seq<string>, r: Record, n: nat, m: nat)
    requires n <= m <= |hdr| && ParsePrefix(hdr, r, n).RowAbort?
    ensures ParsePrefix(hdr, r, m) == ParsePrefix(hdr, r, n)
    decreases m - n
  {
    if n < m {
      ParseAbortPersists(hdr, r, n, m - 1);
    }
  }

  /**
   * The parse of a record stops iff some header position has a problem, and
   * then for the reason of the first such position.
   */
  lemma {:induction false} ParsePrefixAborts(hdr: seq<string>, r: Record, n: nat)
    requires n <= |hdr|
    ensures ParsePrefix(hdr, r, n).RowAbort? <==> exists i :: 0 <= i < n && CellProblem(hdr, r, i)
    ensures ParsePrefix(hdr, r, n).RowAbort? ==>
              exists i :: 0 <= i < n && CellProblem(hdr, r, i) &&
                (forall j :: 0 <= j < i ==> !CellProblem(hdr, r, j)) &&
                ParsePrefix(hdr, r, n).reason == ProblemReason(hdr, r, i)
  {
    if n > 0 {
      ParsePrefixAborts(hdr, r, n - 1);
      if ParsePrefix(hdr, r, n - 1).RowAbort? {
        assert ParsePrefix(hdr, r, n) == ParsePrefix(hdr, r, n - 1);
        var i :| 0 <= i < n - 1 && CellProblem(hdr, r, i) &&
                 (forall j :: 0 <= j < i ==> !CellProblem(hdr, r, j)) &&
                 ParsePrefix(hdr, r, n - 1).reason == ProblemReason(hdr, r, i);
      } else if CellProblem(hdr, r, n - 1) {
        assert ParsePrefix(hdr, r, n) == RowAbort(ProblemReason(hdr, r, n - 1));
      } else {
        assert ParsePrefix(hdr, r, n).RowOk?;
        assert forall i :: 0 <= i < n ==> !CellProblem(hdr, r, i);
      }
    }
  }

  /** The keys of a prefix map are the names of the non-empty cells. */
  lemma {:induction false} ParsePrefixFields(hdr: seq<string>, r: Record, n: nat)
    requires n <= |hdr| && ParsePrefix(hdr, r, n).RowOk?
    ensures n <= |r|
    ensures forall k :: k in ParsePrefix(hdr, r, n).fields <==> exists i :: 0 <= i < n && hdr[i] == k && r[i] != ""
    ensures forall i :: 0 <= i < n && r[i] != "" && (forall j :: i < j < n && hdr[j] == hdr[i] ==> r[j] == "") ==>
              hdr[i] in ParsePrefix(hdr, r, n).fields && ParsePrefix(hdr, r, n).fields[hdr[i]] == r[i]
  {
    if n > 0 {
      ParsePrefixFields(hdr, r, n - 1);
    }
  }

  /**
   * A record parses iff it has a cell for every header name and every
   * non-empty cell is filed under a known name; an empty cell under an
   * unknown name is harmless.  When it parses, the map holds exactly the
   * names of the non-empty cells, each with the verbatim value of its last
   * non-empty cell.
   */
  lemma ParseRowCharacterised(hdr: seq<string>, r: Record)
    ensures ParseRow(hdr, r).RowOk? <==>
              |r| >= |hdr| && forall i :: 0 <= i < |hdr| && r[i] != "" ==> hdr[i] in KnownFields
    ensures ParseRow(hdr, r).RowOk? ==>
              (forall k :: k in ParseRow(hdr, r).fields <==> exists i :: 0 <= i < |hdr| && hdr[i] == k && r[i] != "") &&
              (forall i :: 0 <= i < |hdr| && r[i] != "" && (forall j :: i < j < |hdr| && hdr[j] == hdr[i] ==> r[j] == "") ==>
                 ParseRow(hdr, r).fields[hdr[i]] == r[i])
  {
    ParsePrefixAborts(hdr, r, |hdr|);
    if ParseRow(hdr, r).RowOk? {
      ParsePrefixFields(hdr, r, |hdr|);
      assert |r| >= |hdr|;
      forall i | 0 <= i < |hdr| && r[i] != "" ensures hdr[i] in KnownFields {
        assert !CellProblem(hdr, r, i);
      }
    } else if |r| >= |hdr| {
      var i :| 0 <= i < |hdr| && CellProblem(hdr, r, i);
      assert r[i] != "" && hdr[i] !in KnownFields;
    }
  }

  /** Cells beyond the header's length are ignored. */
  lemma {:induction false} ParseIgnoresExtraCells(hdr: seq<string>, r: Record, extra: seq<string>, n: nat)
    requires n <= |hdr| <= |r|
    ensures ParsePrefix(hdr, r + extra, n) == ParsePrefix(hdr, r, n)
  {
    if n > 0 {
      ParseIgnoresExtraCells(hdr, r, extra, n - 1);
      assert (r + extra)[n - 1] == r[n - 1];
    }
  }

  /**
   * The loop that builds the field map of one record, as the scan does:
   * only non-empty cells are filed, under their header name.
   */
  method BuildRow(hdr: seq<string>, r: Record) returns (result: RowResult)
    ensures result == ParseRow(hdr, r)
  {
    var row: map<string, string> := map[];
    for i := 0 to |hdr|
      invariant ParsePrefix(hdr, r, i) == RowOk(row)
    {
      if i >= |r| {
        ParseAbortPersists(hdr, r, i + 1, |hdr|);
        return RowAbort(ShortRecord);
      }
      var h := hdr[i];
      if r[i] != "" {
        if h == "recipient" || h == "type" || h == "description" || h == "transactional" || h == "non_transactional" {
          row := row[h := r[i]];
        } else {
          ParseAbortPersists(hdr, r, i + 1, |hdr|);
          return RowAbort(UnexpectedField(h));
        }
      }
    }
    return RowOk(row);
  }

  // ---------------------------------------------------------------------------
  // The checks on one record's values
  // ---------------------------------------------------------------------------

  /** ASCII lower-casing of one character. */
  function LowerChar(c: char): char {
    if 'A' <= c <= 'Z' then (c as int + 32) as char else c
  }

  /** ASCII lower-casing of a string (Python's `str.lower` on ASCII text). */
  function Lower(s: string): (t: string)
    ensures |t| == |s|
    ensures forall i :: 0 <= i < |s| ==> t[i] == LowerChar(s[i])
  {
    seq(|s|, i requires 0 <= i < |s| => LowerChar(s[i]))
  }

  /** The accepted values of the `type` field, compared case-sensitively. */
  predicate TypeOk(v: string) {
    v == "transactional" || v == "non_transactional"
  }

  /** The accepted values of a legacy flag: "true" or "false" after lower-casing. */
  predicate FlagOk(v: string) {
    Lower(v) == "true" || Lower(v) == "false"
  }

  /** Two strings that differ at most in the case of their ASCII letters. */
  predicate SameIgnoringCase(u: string, w: string) {
    |u| == |w| && forall i :: 0 <= i < |u| ==> LowerChar(u[i]) == LowerChar(w[i])
  }

  /** A legacy flag is accepted iff it spells "true" or "false" in any mix of cases. */
  lemma FlagOkIgnoresCase(v: string)
    ensures FlagOk(v) <==> SameIgnoringCase(v, "true") || SameIgnoringCase(v, "false")
  {
    if SameIgnoringCase(v, "true") {
      assert Lower(v) == "true";
    }
    if SameIgnoringCase(v, "false") {
      assert Lower(v) == "false";
    }
  }

  /** The complaints about one parsed record at line `line`, in the order the scan emits them. */
  function RowDiagnostics(line: nat, m: map<string, string>, valid: string -> bool): seq<Diagnostic> {
    (if "recipient" in m && !valid(m["recipient"]) then [InvalidEmail(line, m["recipient"])] else [])
    + (if "type" in m && !TypeOk(m["type"]) then [InvalidType(line, m["type"])] else [])
    + (if "transactional" in m && !FlagOk(m["transactional"]) then [InvalidTransactional(line, m["transactional"])] else [])
    + (if "non_transactional" in m && !FlagOk(m["non_transactional"]) then [InvalidNonTransactional(line, m["non_transactional"])] else [])
  }

  /** A record draws at most four complaints, all at its line. */
  lemma RowDiagnosticLines(line: nat, m: map<string, string>, valid: string -> bool)
    ensures forall d :: d in RowDiagnostics(line, m, valid) ==> d.line == line
    ensures |RowDiagnostics(line, m, valid)| <= 4
  {
  }

  /**
   * A complaint about a record names exactly a present value that fails its
   * check: an address the validator rejects, a `type` other than the two
   * accepted spellings, a flag that is not a boolean word.
   */
  lemma RowDiagnosticsExact(line: nat, m: map<string, string>, valid: string -> bool, v: string)
    ensures InvalidEmail(line, v) in RowDiagnostics(line, m, valid) <==>
              "recipient" in m && m["recipient"] == v && !valid(v)
    ensures InvalidType(line, v) in RowDiagnostics(line, m, valid) <==>
              "type" in m && m["type"] == v && !TypeOk(v)
    ensures InvalidTransactional(line, v) in RowDiagnostics(line, m, valid) <==>
              "transactional" in m && m["transactional"] == v && !FlagOk(v)
    ensures InvalidNonTransactional(line, v) in RowDiagnostics(line, m, valid) <==>
              "non_transactional" in m && m["non_transactional"] == v && !FlagOk(v)
  {
  }

  /**
   * The checks the scan makes on one record's field map: whether it counts a
   * recipient, and the complaints it prints.
   */
  method CheckValues(line: nat, m: map<string, string>, valid: string -> bool) returns (counted: nat, diagnostics: seq<Diagnostic>)
    ensures counted == (if "recipient" in m then 1 else 0)
    ensures diagnostics == RowDiagnostics(line, m, valid)
  {
    counted, diagnostics := 0, [];
    if "recipient" in m {
      if !valid(m["recipient"]) {
        diagnostics := diagnostics + [InvalidEmail(line, m["recipient"])];
      }
      counted := counted + 1;
    }
    if "type" in m {
      if !(m["type"] == "transactional" || m["type"] == "non_transactional") {
        diagnostics := diagnostics + [InvalidType(line, m["type"])];
      }
    }
    if "transactional" in m {
      if !(Lower(m["transactional"]) == "true" || Lower(m["transactional"]) == "false") {
        diagnostics := diagnostics + [InvalidTransactional(line, m["transactional"])];
      }
    }
    if "non_transactional" in m {
      if !(Lower(m["non_transactional"]) == "true" || Lower(m["non_transactional"]) == "false") {
        diagnostics := diagnostics + [InvalidNonTransactional(line, m["non_transactional"])];
      }
    }
  }

  // ---------------------------------------------------------------------------
  // The scan over all records
  // ---------------------------------------------------------------------------

  /** The scan's state after one more data record, at line `line`. */
  function StepRow(acc: CheckOutcome, hdr: seq<string>, r: Record, line: nat, valid: string -> bool): CheckOutcome
    requires acc.Completed?
  {
    match ParseRow(hdr, r)
    case RowAbort(e) => Aborted(line, e, acc.diagnostics)
    case RowOk(m) =>
      Completed(acc.addrsChecked + (if "recipient" in m then 1 else 0),
                acc.diagnostics + RowDiagnostics(line, m, valid))
  }

  /** One data record of the scan: build its field map, then count and check its values. */
  method CheckRecord(hdr: seq<string>, r: Record, line: nat, valid: string -> bool, acc: CheckOutcome) returns (next: CheckOutcome)
    requires acc.Completed?
    ensures next == StepRow(acc, hdr, r, line, valid)
  {
    var row := BuildRow(hdr, r);
    if row.RowAbort? {
      return Aborted(line, row.reason, acc.diagnostics);
    }
    var counted, complaints := CheckValues(line, row.fields, valid);
    return Completed(acc.addrsChecked + counted, acc.diagnostics + complaints);
  }

  /** The scan of the data records `records[s..n]` under the header `hdr`. */
  function ScanRows(hdr: seq<string>, records: seq<Record>, s: nat, n: nat, valid: string -> bool): CheckOutcome
    requires s <= n <= |records|
    decreases n - s
  {
    if n == s then Completed(0, [])
    else
      var prev := ScanRows(hdr, records, s, n - 1, valid);
      if prev.Aborted? then prev else StepRow(prev, hdr, records[n - 1], n, valid)
  }

  /** The whole `check` scan of the records of a file. */
  function CheckSpec(records: seq<Record>, valid: string -> bool): CheckOutcome {
    if |records| == 0 then Completed(0, [])
    else
      match DecideHeader(records[0])
      case HeaderRow(h) => ScanRows(h, records, 1, |records|, valid)
      case Headerless => ScanRows(["recipient"], records, 0, |records|, valid)
      case HeaderRejected(e) => Aborted(1, e, [])
  }

  /** Once the scan has stopped, later records change nothing. */
  lemma {:induction false} ScanAbortPersists(hdr: seq<string>, records: seq<Record>, s: nat, n: nat, m: nat, valid: string -> bool)
    requires s <= n <= m <= |records| && ScanRows(hdr, records, s, n, valid).Aborted?
    ensures ScanRows(hdr, records, s, m, valid) == ScanRows(hdr, records, s, n, valid)
    decreases m - n
  {
    if n < m {
      ScanAbortPersists(hdr, records, s, n, m - 1, valid);
    }
  }

  /**
   * The `check` scan, record by record: the first record picks the header
   * (and is skipped when it is one), each data record is parsed into a field
   * map, its recipient counted and its values checked.
   */
  method Check(records: seq<Record>, valid: string -> bool) returns (outcome: CheckOutcome)
    ensures outcome == CheckSpec(records, valid)
  {
    var hdr: seq<string> := [];
    var addrsChecked := 0;
    var diagnostics: seq<Diagnostic> := [];
    ghost var start := 0;
    var k := 0;
    while k < |records|
      invariant 0 <= k <= |records|
      invariant k == 0 ==> addrsChecked == 0 && diagnostics == []
      invariant k > 0 ==> start <= k && DecideHeader(records[0]) == (if start == 1 then HeaderRow(hdr) else Headerless)
      invariant k > 0 ==> start == 0 ==> hdr == ["recipient"]
      invariant k > 0 ==> ScanRows(hdr, records, start, k, valid) == Completed(addrsChecked, diagnostics)
    {
      var r := records[k];
      var line := k + 1;
      if line == 1 {
        if "recipient" in r {
          hdr, start := r, 1;
          k := k + 1;
          continue;
        } else if |r| == 0 {
          return Aborted(1, EmptyFirstRecord, []);
        } else if Contains(r[0], '@') && |r| == 1 {
          hdr, start := ["recipient"], 0;
        } else {
          return Aborted(1, MissingRecipientHeader, []);
        }
      }
      var next := CheckRecord(hdr, r, line, valid, Completed(addrsChecked, diagnostics));
      if next.Aborted? {
        ScanAbortPersists(hdr, records, start, k + 1, |records|, valid);
        return next;
      }
      addrsChecked, diagnostics := next.addrsChecked, next.diagnostics;
      k := k + 1;
    }
    if k == 0 {
      return Completed(0, []);
    }
    return Completed(addrsChecked, diagnostics);
  }

  // ---------------------------------------------------------------------------
  // What the scan promises
  // ---------------------------------------------------------------------------

  /** Whether a record has a non-empty cell under a "recipient" header name. */
  predicate HasRecipientCell(hdr: seq<string>, r: Record) {
    exists j :: 0 <= j < |hdr| && j < |r| && hdr[j] == "recipient" && r[j] != ""
  }

  /** The indices of the records in `records[s..n]` that have a recipient cell. */
  function RecipientRows(hdr: seq<string>, records: seq<Record>, s: nat, n: nat): set<nat>
    requires s <= n <= |records|
  {
    set i: nat | s <= i < n && HasRecipientCell(hdr, records[i])
  }

  /**
   * The scan of `records[s..n]` stops iff one of those records fails to
   * parse, and then at the line of the first such record, for its reason,
   * with the complaints of the scan of the records before it.
   */
  lemma {:induction false} ScanAborts(hdr: seq<string>, records: seq<Record>, s: nat, n: nat, valid: string -> bool)
    requires s <= n <= |records|
    ensures ScanRows(hdr, records, s, n, valid).Aborted? <==>
              exists i :: s <= i < n && ParseRow(hdr, records[i]).RowAbort?
    ensures ScanRows(hdr, records, s, n, valid).Aborted? ==>
              exists i :: s <= i < n && ParseRow(hdr, records[i]).RowAbort? &&
                (forall j :: s <= j < i ==> ParseRow(hdr, records[j]).RowOk?) &&
                ScanRows(hdr, records, s, i, valid).Completed? &&
                ScanRows(hdr, records, s, n, valid) ==
                  Aborted(i + 1, ParseRow(hdr, records[i]).reason, ScanRows(hdr, records, s, i, valid).diagnostics)
  {
    if n > s {
      ScanAborts(hdr, records, s, n - 1, valid);
    }
  }

  /** A parsed record has a "recipient" field iff it has a non-empty cell under that name. */
  lemma RecipientField(hdr: seq<string>, r: Record)
    requires ParseRow(hdr, r).RowOk?
    ensures "recipient" in ParseRow(hdr, r).fields <==> HasRecipientCell(hdr, r)
  {
    ParsePrefixFields(hdr, r, |hdr|);
  }

  /**
   * A completed scan has counted exactly the data records with a non-empty
   * recipient cell, whether or not their addresses are valid.
   */
  lemma {:induction false} ScanCounts(hdr: seq<string>, records: seq<Record>, s: nat, n: nat, valid: string -> bool)
    requires s <= n <= |records|
    ensures ScanRows(hdr, records, s, n, valid).Completed? ==>
              ScanRows(hdr, records, s, n, valid).addrsChecked == |RecipientRows(hdr, records, s, n)|
  {
    if n > s {
      ScanCounts(hdr, records, s, n - 1, valid);
      if ScanRows(hdr, records, s, n, valid).Completed? {
        RecipientField(hdr, records[n - 1]);
        if HasRecipientCell(hdr, records[n - 1]) {
          assert RecipientRows(hdr, records, s, n) == RecipientRows(hdr, records, s, n - 1) + {n - 1};
        } else {
          assert RecipientRows(hdr, records, s, n) == RecipientRows(hdr, records, s, n - 1);
        }
      }
    }
  }

  /** Whether `d` is one of the complaints about data record `i`. */
  predicate ComplaintAbout(hdr: seq<string>, records: seq<Record>, i: nat, valid: string -> bool, d: Diagnostic)
    requires i < |records|
  {
    ParseRow(hdr, records[i]).RowOk? && d in RowDiagnostics(i + 1, ParseRow(hdr, records[i]).fields, valid)
  }

  /** The complaints about records `s .. n-1` are those about records before `n-1`, and those about record `n-1`. */
  lemma ComplaintsSplit(hdr: seq<string>, records: seq<Record>, s: nat, n: nat, valid: string -> bool, d: Diagnostic)
    requires s < n <= |records| && ParseRow(hdr, records[n - 1]).RowOk?
    ensures (exists i :: s <= i < n && ComplaintAbout(hdr, records, i, valid, d)) <==>
              (exists i :: s <= i < n - 1 && ComplaintAbout(hdr, records, i, valid, d)) ||
              d in RowDiagnostics(n, ParseRow(hdr, records[n - 1]).fields, valid)
  {
    if d in RowDiagnostics(n, ParseRow(hdr, records[n - 1]).fields, valid) {
      assert ComplaintAbout(hdr, records, n - 1, valid, d);
    }
  }

  /** The complaints of a completed scan are exactly those of its data records. */
  lemma {:induction false} ScanDiagnostics(hdr: seq<string>, records: seq<Record>, s: nat, n: nat, valid: string -> bool)
    requires s <= n <= |records| && ScanRows(hdr, records, s, n, valid).Completed?
    ensures forall d :: d in ScanRows(hdr, records, s, n, valid).diagnostics <==>
              exists i :: s <= i < n && ComplaintAbout(hdr, records, i, valid, d)
  {
    if n > s {
      ScanDiagnostics(hdr, records, s, n - 1, valid);
      var old_ds := ScanRows(hdr, records, s, n - 1, valid).diagnostics;
      var new_ds := RowDiagnostics(n, ParseRow(hdr, records[n - 1]).fields, valid);
      assert ScanRows(hdr, records, s, n, valid).diagnostics == old_ds + new_ds;
      var ds := ScanRows(hdr, records, s, n, valid).diagnostics;
      forall d ensures d in ds <==> exists i :: s <= i < n && ComplaintAbout(hdr, records, i, valid, d) {
        ComplaintsSplit(hdr, records, s, n, valid, d);
      }
    }
  }

  /** The complaints of a completed scan are at the lines of its data records, in line order. */
  lemma {:induction false} ScanDiagnosticLines(hdr: seq<string>, records: seq<Record>, s: nat, n: nat, valid: string -> bool)
    requires s <= n <= |records| && ScanRows(hdr, records, s, n, valid).Completed?
    ensures forall d :: d in ScanRows(hdr, records, s, n, valid).diagnostics ==> s < d.line <= n
    ensures var ds := ScanRows(hdr, records, s, n, valid).diagnostics;
              forall a, b :: 0 <= a < b < |ds| ==> ds[a].line <= ds[b].line
  {
    if n > s {
      ScanDiagnosticLines(hdr, records, s, n - 1, valid);
      var old_ds := ScanRows(hdr, records, s, n - 1, valid).diagnostics;
      var new_ds := RowDiagnostics(n, ParseRow(hdr, records[n - 1]).fields, valid);
      var ds := ScanRows(hdr, records, s, n, valid).diagnostics;
      RowDiagnosticLines(n, ParseRow(hdr, records[n - 1]).fields, valid);
      assert ds == old_ds + new_ds;
      forall a, b | 0 <= a < b < |ds| ensures ds[a].line <= ds[b].line {
        if b >= |old_ds| {
          assert ds[b] in new_ds;
          if a < |old_ds| { assert ds[a] in old_ds; } else { assert ds[a] in new_ds; }
        } else {
          assert ds[a] == old_ds[a] && ds[b] == old_ds[b];
        }
      }
    }
  }

  /**
   * A scan that stops has printed exactly the complaints about the records
   * before the one it stops at, each at its record's line, in line order.
   */
  lemma ScanAbortDiagnostics(hdr: seq<string>, records: seq<Record>, s: nat, n: nat, valid: string -> bool)
    requires s <= n <= |records| && ScanRows(hdr, records, s, n, valid).Aborted?
    ensures var out := ScanRows(hdr, records, s, n, valid);
            && s < out.line <= n
            && ParseRow(hdr, records[out.line - 1]) == RowAbort(out.reason)
            && (forall d :: d in out.diagnostics <==>
                  exists i :: s <= i < out.line - 1 && ComplaintAbout(hdr, records, i, valid, d))
            && (forall d :: d in out.diagnostics ==> s < d.line < out.line)
            && (forall a, b :: 0 <= a < b < |out.diagnostics| ==> out.diagnostics[a].line <= out.diagnostics[b].line)
  {
    ScanAborts(hdr, records, s, n, valid);
    var i :| s <= i < n && ParseRow(hdr, records[i]).RowAbort? &&
             (forall j :: s <= j < i ==> ParseRow(hdr, records[j]).RowOk?) &&
             ScanRows(hdr, records, s, i, valid).Completed? &&
             ScanRows(hdr, records, s, n, valid) ==
               Aborted(i + 1, ParseRow(hdr, records[i]).reason, ScanRows(hdr, records, s, i, valid).diagnostics);
    ScanDiagnostics(hdr, records, s, i, valid);
    ScanDiagnosticLines(hdr, records, s, i, valid);
  }

  /** Whether an address is valid never decides whether the scan stops, where, why, or what it counts. */
  lemma {:induction false} ScanIgnoresValidator(hdr: seq<string>, records: seq<Record>, s: nat, n: nat, v1: string -> bool, v2: string -> bool)
    requires s <= n <= |records|
    ensures ScanRows(hdr, records, s, n, v1).Aborted? == ScanRows(hdr, records, s, n, v2).Aborted?
    ensures ScanRows(hdr, records, s, n, v1).Aborted? ==>
              ScanRows(hdr, records, s, n, v1).line == ScanRows(hdr, records, s, n, v2).line &&
              ScanRows(hdr, records, s, n, v1).reason == ScanRows(hdr, records, s, n, v2).reason
    ensures ScanRows(hdr, records, s, n, v1).Completed? ==>
              ScanRows(hdr, records, s, n, v1).addrsChecked == ScanRows(hdr, records, s, n, v2).addrsChecked
  {
    if n > s {
      ScanIgnoresValidator(hdr, records, s, n - 1, v1, v2);
    }
  }

  /**
   * With a header record, that record is never data: the scan stops iff a
   * later record fails to parse (at line 2 or after), counts only later
   * records and complains only about them, whether or not it stops.
   */
  lemma CheckWithHeaderRow(records: seq<Record>, valid: string -> bool)
    requires |records| > 0 && "recipient" in records[0]
    ensures CheckSpec(records, valid).Aborted? <==>
              exists i :: 1 <= i < |records| && ParseRow(records[0], records[i]).RowAbort?
    ensures CheckSpec(records, valid).Aborted? ==> CheckSpec(records, valid).line >= 2
    ensures CheckSpec(records, valid).Completed? ==>
              CheckSpec(records, valid).addrsChecked == |RecipientRows(records[0], records, 1, |records|)|
    ensures forall d :: d in CheckSpec(records, valid).diagnostics ==> d.line >= 2
  {
    ScanAborts(records[0], records, 1, |records|, valid);
    ScanCounts(records[0], records, 1, |records|, valid);
    if CheckSpec(records, valid).Completed? {
      ScanDiagnosticLines(records[0], records, 1, |records|, valid);
    } else {
      ScanAbortDiagnostics(records[0], records, 1, |records|, valid);
    }
  }

  /**
   * Without a header record, the first record (a bare address) is data under
   * the header ["recipient"]: it is counted, and it draws a complaint at
   * line 1 iff the validator rejects it, even when a later record stops the
   * scan.
   */
  lemma CheckHeaderless(records: seq<Record>, valid: string -> bool)
    requires |records| > 0 && DecideHeader(records[0]).Headerless?
    ensures CheckSpec(records, valid).Aborted? <==>
              exists i :: 1 <= i < |records| && ParseRow(["recipient"], records[i]).RowAbort?
    ensures CheckSpec(records, valid).Completed? ==>
              CheckSpec(records, valid).addrsChecked == |RecipientRows(["recipient"], records, 0, |records|)| &&
              CheckSpec(records, valid).addrsChecked >= 1
    ensures InvalidEmail(1, records[0][0]) in CheckSpec(records, valid).diagnostics <==> !valid(records[0][0])
  {
    var hdr := ["recipient"];
    var a := records[0][0];
    var m := map["recipient" := a];
    assert a != "" && |records[0]| == 1;
    assert ParsePrefix(hdr, records[0], 0) == RowOk(map[]);
    assert ParsePrefix(hdr, records[0], 1) == RowOk(m);
    assert ParseRow(hdr, records[0]) == RowOk(m);
    ScanAborts(hdr, records, 0, |records|, valid);
    ScanCounts(hdr, records, 0, |records|, valid);
    var out := ScanRows(hdr, records, 0, |records|, valid);
    assert CheckSpec(records, valid) == out;
    // the records whose complaints the scan printed: all of them, or those before the one it stops at
    var bound := if out.Completed? then |records| else out.line - 1;
    if out.Completed? {
      assert HasRecipientCell(hdr, records[0]);
      assert {0} <= RecipientRows(hdr, records, 0, |records|);
      ScanDiagnostics(hdr, records, 0, |records|, valid);
    } else {
      ScanAbortDiagnostics(hdr, records, 0, |records|, valid);
      assert bound > 0;
    }
    FirstRecordComplaint(hdr, records, bound, valid, a);
  }

  /** Among records `0 .. bound-1`, the one complaint at line 1 about a bare-address first record is its rejection by the validator. */
  lemma FirstRecordComplaint(hdr: seq<string>, records: seq<Record>, bound: nat, valid: string -> bool, a: string)
    requires 0 < bound <= |records| && ParseRow(hdr, records[0]) == RowOk(map["recipient" := a])
    ensures (exists i :: 0 <= i < bound && ComplaintAbout(hdr, records, i, valid, InvalidEmail(1, a))) <==> !valid(a)
  {
    var d := InvalidEmail(1, a);
    RowDiagnosticsExact(1, map["recipient" := a], valid, a);
    if exists i :: 0 <= i < bound && ComplaintAbout(hdr, records, i, valid, d) {
      var i :| 0 <= i < bound && ComplaintAbout(hdr, records, i, valid, d);
      RowDiagnosticLines(i + 1, ParseRow(hdr, records[i]).fields, valid);
      assert i == 0;
    } else {
      assert !ComplaintAbout(hdr, records, 0, valid, d);
    }
  }

  /** The validator decides only the complaints: the abort, its line, its reason and the count are the same for any validator. */
  lemma CheckIgnoresValidator(records: seq<Record>, v1: string -> bool, v2: string -> bool)
    ensures CheckSpec(records, v1).Aborted? == CheckSpec(records, v2).Aborted?
    ensures CheckSpec(records, v1).Aborted? ==>
              CheckSpec(records, v1).line == CheckSpec(records, v2).line &&
              CheckSpec(records, v1).reason == CheckSpec(records, v2).reason
    ensures CheckSpec(records, v1).Completed? ==> CheckSpec(records, v1).addrsChecked == CheckSpec(records, v2).addrsChecked
  {
    if |records| > 0 {
      match DecideHeader(records[0])
      case HeaderRow(h) => ScanIgnoresValidator(h, records, 1, |records|, v1, v2);
      case Headerless => ScanIgnoresValidator(["recipient"], records, 0, |records|, v1, v2);
      case HeaderRejected(_) =>
    }
  }
}
