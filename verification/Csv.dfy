/** Splitting one line of a merchant's CSV file into fields. */
module Csv {
  const QUOTE: char := '"'

  predicate Separator(c: char) {
    c == ',' || c == ';'
  }

  /** The fields of the rest of a line, given the current field so far and whether it is inside quotes. */
  function Scan(line: string, cur: string, inQuotes: bool): (fields: seq<string>)
    ensures |fields| >= 1
    decreases |line|
  {
    if |line| == 0 then [cur]
    else if line[0] == QUOTE then
      if inQuotes && |line| > 1 && line[1] == QUOTE then Scan(line[2..], cur + [QUOTE], true)
      else Scan(line[1..], cur, !inQuotes)
    else if Separator(line[0]) && !inQuotes then [cur] + Scan(line[1..], "", false)
    else Scan(line[1..], cur + [line[0]], inQuotes)
  }

  function Split(line: string): (fields: seq<string>)
    ensures |fields| >= 1
  {
    Scan(line, "", false)
  }

  method SplitCsvLine(line: string) returns (out: seq<string>)
    ensures out == Split(line)
  {
    out := [];
    var cur, inQuotes, i := "", false, 0;
    while i < |line|
      invariant 0 <= i <= |line|
      invariant out + Scan(line[i..], cur, inQuotes) == Split(line)
    {
      var c := line[i];
      assert line[i..][1..] == line[i + 1..];
      if c == QUOTE {
        if inQuotes && i + 1 < |line| && line[i + 1] == QUOTE {
          assert line[i..][2..] == line[i + 2..];
          cur := cur + [QUOTE];
          i := i + 1;
        } else {
          inQuotes := !inQuotes;
        }
      } else if Separator(c) && !inQuotes {
        out := out + [cur];
        cur := "";
      } else {
        cur := cur + [c];
      }
      i := i + 1;
    }
    out := out + [cur];
  }

  // ------------------------------------------------------------ left inverse

  /** Quotes doubled. */
  function Escaped(field: string): string {
    if |field| == 0 then ""
    else (if field[0] == QUOTE then [QUOTE, QUOTE] else [field[0]]) + Escaped(field[1..])
  }

  function Quoted(field: string): string {
    [QUOTE] + Escaped(field) + [QUOTE]
  }

  /** A field that needs no quotes. */
  predicate Plain(field: string) {
    forall i :: 0 <= i < |field| ==> field[i] != QUOTE && !Separator(field[i])
  }

  /** A way of writing a field: quoted, or as it is when it is plain. */
  predicate Writes(written: string, field: string) {
    written == Quoted(field) || (written == field && Plain(field))
  }

  /** Written fields with a separator of either kind between each two. */
  function Joined(written: seq<string>, separators: seq<char>): string
    requires |written| > 0 && |separators| == |written| - 1
  {
    if |written| == 1 then written[0]
    else written[0] + [separators[0]] + Joined(written[1..], separators[1..])
  }

  /** Nothing, or a separator: what may follow a complete field. */
  predicate FieldEnds(rest: string) {
    |rest| == 0 || Separator(rest[0])
  }

  /** Escaped text inside quotes is read as the text, up to the closing quote. */
  lemma {:induction false} ScanEscaped(field: string, rest: string, cur: string)
    requires FieldEnds(rest)
    ensures Scan(Escaped(field) + [QUOTE] + rest, cur, true) == Scan(rest, cur + field, false)
  {
    var line := Escaped(field) + [QUOTE] + rest;
    if |field| == 0 {
      assert line[1..] == rest;
      assert cur + field == cur;
    } else {
      var tail := Escaped(field[1..]) + [QUOTE] + rest;
      ScanEscaped(field[1..], rest, cur + [field[0]]);
      assert cur + field == cur + [field[0]] + field[1..];
      if field[0] == QUOTE {
        assert line[2..] == tail;
      } else {
        assert line[1..] == tail;
      }
    }
  }

  lemma {:induction false} ScanPlain(field: string, rest: string, cur: string)
    requires Plain(field)
    ensures Scan(field + rest, cur, false) == Scan(rest, cur + field, false)
  {
    if |field| == 0 {
      assert field + rest == rest && cur + field == cur;
    } else {
      assert (field + rest)[1..] == field[1..] + rest;
      ScanPlain(field[1..], rest, cur + [field[0]]);
      assert cur + field == cur + [field[0]] + field[1..];
    }
  }

  lemma {:induction false} ScanWritten(written: string, field: string, rest: string)
    requires Writes(written, field) && FieldEnds(rest)
    ensures Scan(written + rest, "", false) == Scan(rest, field, false)
  {
    assert "" + field == field;
    if written == Quoted(field) {
      assert (written + rest)[1..] == Escaped(field) + [QUOTE] + rest;
      ScanEscaped(field, rest, "");
    } else {
      ScanPlain(field, rest, "");
    }
  }

  /**
   * Splitting is a left inverse of quoting: any fields, each quoted or written plainly where that is
   * possible, joined by commas and semicolons in any mix, are read back exactly.
   */
  lemma {:induction false} SplitJoined(fields: seq<string>, written: seq<string>, separators: seq<char>)
    requires |fields| == |written| > 0 && |separators| == |written| - 1
    requires forall i :: 0 <= i < |fields| ==> Writes(written[i], fields[i])
    requires forall i :: 0 <= i < |separators| ==> Separator(separators[i])
    ensures Split(Joined(written, separators)) == fields
  {
    if |written| == 1 {
      ScanWritten(written[0], fields[0], "");
      assert written[0] + "" == written[0];
    } else {
      var rest := Joined(written[1..], separators[1..]);
      SplitJoined(fields[1..], written[1..], separators[1..]);
      ScanWritten(written[0], fields[0], [separators[0]] + rest);
      assert ([separators[0]] + rest)[1..] == rest;
      assert Joined(written, separators) == written[0] + ([separators[0]] + rest);
    }
  }

  // ---------------------------------------------------------- any line at all

  function Quotes(line: string): nat {
    if |line| == 0 then 0 else Quotes(line[..|line| - 1]) + (if line[|line| - 1] == QUOTE then 1 else 0)
  }

  /** Separators preceded by an even number of quotes. */
  function OpenSeparators(line: string): nat {
    if |line| == 0 then 0
    else
      var n := |line| - 1;
      OpenSeparators(line[..n]) + (if Separator(line[n]) && Quotes(line[..n]) % 2 == 0 then 1 else 0)
  }

  /** The same counts, from the front. */
  function OpenFrom(line: string, inQuotes: bool): nat {
    if |line| == 0 then 0
    else
      (if Separator(line[0]) && !inQuotes then 1 else 0)
      + OpenFrom(line[1..], if line[0] == QUOTE then !inQuotes else inQuotes)
  }

  lemma {:induction false} ScanCount(line: string, cur: string, inQuotes: bool)
    ensures |Scan(line, cur, inQuotes)| == 1 + OpenFrom(line, inQuotes)
    decreases |line|
  {
    if |line| == 0 {
    } else if line[0] == QUOTE {
      if inQuotes && |line| > 1 && line[1] == QUOTE {
        assert line[1..][1..] == line[2..];
        ScanCount(line[2..], cur + [QUOTE], true);
      } else {
        ScanCount(line[1..], cur, !inQuotes);
      }
    } else if Separator(line[0]) && !inQuotes {
      ScanCount(line[1..], "", false);
    } else {
      ScanCount(line[1..], cur + [line[0]], inQuotes);
    }
  }

  lemma {:induction false} OpenFromSplit(a: string, b: string)
    ensures OpenFrom(a + b, false) == OpenSeparators(a) + OpenFrom(b, Quotes(a) % 2 == 1)
    decreases |a|
  {
    if |a| == 0 {
      assert a + b == b;
    } else {
      var n := |a| - 1;
      OpenFromSplit(a[..n], [a[n]] + b);
      assert a[..n] + ([a[n]] + b) == a + b;
      assert ([a[n]] + b)[1..] == b;
    }
  }

  /** For every line: one field more than it has separators after an even number of quotes. */
  lemma {:induction false} FieldCount(line: string)
    ensures |Split(line)| == 1 + OpenSeparators(line)
  {
    ScanCount(line, "", false);
    OpenFromSplit(line, "");
    assert line + "" == line;
  }
}
