/**
 * The output side of the `retrieve` command: the configured `Properties`
 * string that names the output columns, and the projection of each
 * suppression-list entry onto those columns (a CSV dict-writer with
 * `restval=''` and `extrasaction='ignore'`).  Rows are modelled as cell
 * sequences; CSV quoting and the file itself are not modelled.
 */
module CsvOutput {

  /** `s` with every carriage return and line feed removed. */
  function RemoveLineBreaks(s: string): (t: string)
    ensures forall i :: 0 <= i < |t| ==> t[i] != '\r' && t[i] != '\n'
    ensures |t| <= |s|
  {
    if |s| == 0 then ""
    else if s[0] == '\r' || s[0] == '\n' then RemoveLineBreaks(s[1..])
    else [s[0]] + RemoveLineBreaks(s[1..])
  }

  /** Removing line breaks keeps a string that has none unchanged. */
  lemma {:induction false} RemoveLineBreaksKeepsClean(s: string)
    requires forall i :: 0 <= i < |s| ==> s[i] != '\r' && s[i] != '\n'
    ensures RemoveLineBreaks(s) == s
  {
    if |s| > 0 {
      RemoveLineBreaksKeepsClean(s[1..]);
    }
  }

  /** Python's `s.split(sep)` with a one-character separator: never empty, empty fields kept. */
  function Split(s: string, sep: char): (parts: seq<string>)
    ensures |parts| >= 1
    ensures forall k :: 0 <= k < |parts| ==> sep !in parts[k]
    decreases |s|
  {
    if |s| == 0 then [""]
    else
      var rest := Split(s[1..], sep);
      if s[0] == sep then [""] + rest
      else [[s[0]] + rest[0]] + rest[1..]
  }

  /** `sep.join(parts)`. */
  function Join(parts: seq<string>, sep: char): string
    requires |parts| >= 1
    decreases |parts|
  {
    if |parts| == 1 then parts[0] else parts[0] + [sep] + Join(parts[1..], sep)
  }

  /** Joining the pieces of a split gives back the string. */
  lemma {:induction false} JoinSplit(s: string, sep: char)
    ensures Join(Split(s, sep), sep) == s
    decreases |s|
  {
    if |s| > 0 {
      JoinSplit(s[1..], sep);
      var rest := Split(s[1..], sep);
      if s[0] == sep {
        assert ([""] + rest)[1..] == rest;
      } else {
        var parts := [[s[0]] + rest[0]] + rest[1..];
        if |rest| > 1 {
          assert parts[1..] == rest[1..];
        }
        assert s == [s[0]] + s[1..];
      }
    }
  }

  /** Splitting a join of separator-free pieces gives back the pieces. */
  lemma {:induction false} SplitJoin(parts: seq<string>, sep: char)
    requires |parts| >= 1 && forall k :: 0 <= k < |parts| ==> sep !in parts[k]
    ensures Split(Join(parts, sep), sep) == parts
    decreases |parts|, |parts[0]|
  {
    var p0 := parts[0];
    if |p0| == 0 {
      if |parts| > 1 {
        SplitJoin(parts[1..], sep);
        assert Join(parts, sep) == [sep] + Join(parts[1..], sep);
        assert Join(parts, sep)[1..] == Join(parts[1..], sep);
        assert parts == [""] + parts[1..];
      }
    } else {
      var shorter := [p0[1..]] + parts[1..];
      assert sep !in p0[1..] by { assert forall c :: c in p0[1..] ==> c in p0; }
      SplitJoin(shorter, sep);
      assert shorter[1..] == parts[1..];
      assert Join(parts, sep) == [p0[0]] + Join(shorter, sep);
      assert Join(parts, sep)[1..] == Join(shorter, sep);
      assert p0 == [p0[0]] + p0[1..];
    }
  }

  /** The output column names: the `Properties` setting without line breaks, split on ','. */
  function Columns(properties: string): (fList: seq<string>)
    ensures |fList| >= 1
    ensures forall k :: 0 <= k < |fList| ==> ',' !in fList[k] && '\r' !in fList[k] && '\n' !in fList[k]
    ensures Join(fList, ',') == RemoveLineBreaks(properties)
  {
    var clean := RemoveLineBreaks(properties);
    var fList := Split(clean, ',');
    JoinSplit(clean, ',');
    ColumnsHaveNoBreaks(fList, clean);
    fList
  }

  /** A piece of a split string has no character the string lacks. */
  lemma ColumnsHaveNoBreaks(fList: seq<string>, clean: string)
    requires |fList| >= 1 && Join(fList, ',') == clean
    requires forall i :: 0 <= i < |clean| ==> clean[i] != '\r' && clean[i] != '\n'
    ensures forall k :: 0 <= k < |fList| ==> '\r' !in fList[k] && '\n' !in fList[k]
  {
    forall k | 0 <= k < |fList| ensures '\r' !in fList[k] && '\n' !in fList[k] {
      JoinContains(fList, ',', k);
    }
  }

  /** Every character of a piece occurs in the join. */
  lemma {:induction false} JoinContains(parts: seq<string>, sep: char, k: nat)
    requires |parts| >= 1 && k < |parts|
    ensures forall c :: c in parts[k] ==> c in Join(parts, sep)
    decreases |parts|
  {
    if |parts| > 1 {
      if k > 0 {
        JoinContains(parts[1..], sep, k - 1);
      }
    }
  }

  /** The cell written for column `f`: the entry's value, or '' when it has none. */
  function Cell(entry: map<string, string>, f: string): string {
    if f in entry then entry[f] else ""
  }

  /** The row written for one entry: one cell per column, in column order; other keys are dropped. */
  function Project(fList: seq<string>, entry: map<string, string>): (row: seq<string>)
    ensures |row| == |fList|
  {
    seq(|fList|, i requires 0 <= i < |fList| => Cell(entry, fList[i]))
  }

  /** The rows written for a page of entries. */
  function ProjectAll(fList: seq<string>, entries: seq<map<string, string>>): (rows: seq<seq<string>>)
    ensures |rows| == |entries|
  {
    seq(|entries|, i requires 0 <= i < |entries| => Project(fList, entries[i]))
  }

  /** Whether no column name is repeated. */
  predicate Distinct(fList: seq<string>) {
    forall i, j :: 0 <= i < j < |fList| ==> fList[i] != fList[j]
  }

  /** Reading a row back: each column whose cell is non-empty, with that cell. */
  function ReadBack(fList: seq<string>, row: seq<string>): map<string, string>
    requires |row| == |fList| && Distinct(fList)
  {
    map i | 0 <= i < |fList| && row[i] != "" :: fList[i] := row[i]
  }

  /**
   * A written row keeps exactly the entry's non-empty values under the
   * output columns: keys outside the columns are dropped, and a missing key
   * becomes an empty cell.
   */
  lemma ProjectReadBack(fList: seq<string>, entry: map<string, string>)
    requires Distinct(fList)
    ensures ReadBack(fList, Project(fList, entry)) ==
              map k | k in entry && k in fList && entry[k] != "" :: entry[k]
  {
    var row := Project(fList, entry);
    var lhs := ReadBack(fList, row);
    var rhs := map k | k in entry && k in fList && entry[k] != "" :: entry[k];
    forall k | k in lhs ensures k in rhs && lhs[k] == rhs[k] {
      var i :| 0 <= i < |fList| && row[i] != "" && fList[i] == k;
    }
    forall k | k in rhs ensures k in lhs {
      var i :| 0 <= i < |fList| && fList[i] == k;
      assert row[i] == entry[k];
    }
  }

  /** Keys outside the columns never reach the output. */
  lemma ProjectIgnoresExtraKeys(fList: seq<string>, entry: map<string, string>, extra: map<string, string>)
    requires forall k :: k in extra ==> k !in fList
    ensures Project(fList, entry + extra) == Project(fList, entry)
  {
  }
}
