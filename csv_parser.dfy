/** `parseCSV` (utils/csvParser.ts): a tab-separated sales export, one day
    per line after a header line, every field possibly wrapped in quotes, is
    read into daily records. Malformed lines are skipped and unreadable
    numbers become 0; nothing is reported. */
module CsvParser {
  import opened Wrappers
  import opened Types
  import opened Strings
  import opened Numbers

  const Quote: char := '"'

  /** One enclosing pair of quotes is removed from a line that starts and
      ends with a quote. A line that is a single quote is kept: JavaScript's
      `substring(1, 0)` swaps its bounds and returns that quote. */
  function StripOuterQuotes(line: string): (r: string)
    ensures r != line ==> |line| >= 2 && line[0] == Quote && line[|line| - 1] == Quote
    ensures |line| >= 2 && line[0] == Quote && line[|line| - 1] == Quote ==> r == line[1..|line| - 1]
  {
    if line != [] && line[0] == Quote && line[|line| - 1] == Quote then
      if |line| >= 2 then line[1..|line| - 1] else line
    else
      line
  }

  /** A line wrapped in quotes loses exactly those two quotes. */
  lemma StripOuterQuotesOfWrapped(x: string)
    ensures StripOuterQuotes([Quote] + x + [Quote]) == x
  {
    assert ([Quote] + x + [Quote])[1..|x| + 1] == x;
  }

  /** The `^""` alternative: a doubled quote at the start is removed. */
  function DropLeadingPair(part: string): string {
    if |part| >= 2 && part[0] == Quote && part[1] == Quote then part[2..] else part
  }

  /** The `""$` alternative: a doubled quote at the end is removed. */
  function DropTrailingPair(part: string): string {
    if |part| >= 2 && part[|part| - 2] == Quote && part[|part| - 1] == Quote then part[..|part| - 2] else part
  }

  /** `part.replace(/^""|""$/g, '')`: the global search removes a doubled
      quote at the start, then one at the end of what remains (the two never
      overlap). */
  function StripDoubledQuotes(part: string): (r: string)
    ensures |r| <= |part|
    ensures DeleteAll(r, Quote) == DeleteAll(part, Quote)
  {
    DeleteAfterLeadingPair(part);
    DeleteAfterTrailingPair(DropLeadingPair(part));
    DropTrailingPair(DropLeadingPair(part))
  }

  /** A field's cleanup: doubled quotes at the ends, then every quote. */
  function CleanField(part: string): (r: string)
    ensures Quote !in r
  {
    DeleteAll(StripDoubledQuotes(part), Quote)
  }

  lemma DeletePair()
    ensures DeleteAll([Quote, Quote], Quote) == []
  {
    assert [Quote, Quote][1..] == [Quote];
    assert [Quote][1..] == [];
    assert DeleteAll([Quote], Quote) == DeleteAll([], Quote) == [];
  }

  lemma DeleteAfterLeadingPair(part: string)
    ensures DeleteAll(DropLeadingPair(part), Quote) == DeleteAll(part, Quote)
  {
    if |part| >= 2 && part[0] == Quote && part[1] == Quote {
      assert part == [Quote, Quote] + part[2..];
      DeleteAllAppend([Quote, Quote], part[2..], Quote);
      DeletePair();
    }
  }

  lemma DeleteAfterTrailingPair(part: string)
    ensures DeleteAll(DropTrailingPair(part), Quote) == DeleteAll(part, Quote)
  {
    if |part| >= 2 && part[|part| - 2] == Quote && part[|part| - 1] == Quote {
      assert part == part[..|part| - 2] + [Quote, Quote];
      DeleteAllAppend(part[..|part| - 2], [Quote, Quote], Quote);
      DeletePair();
    }
  }

  /** The doubled-quote pass is subsumed by the global quote deletion:
      cleaning a field is deleting every quote from it. */
  lemma CleanFieldDeletesQuotes(part: string)
    ensures CleanField(part) == DeleteAll(part, Quote)
  {
  }

  /** Cleaning keeps every character but the quote, tabs included. */
  lemma CleanFieldKeepsTabs(part: string)
    ensures '\t' in CleanField(part) <==> '\t' in part
  {
    CleanFieldDeletesQuotes(part);
    assert multiset(CleanField(part))['\t'] == multiset(part)['\t'];
  }

  /** Deleting the quotes leaves a lone tab alone. */
  lemma DeleteQuotesFromTab()
    ensures DeleteAll(['\t'], Quote) == ['\t']
  {
    assert ['\t'][1..] == [];
  }

  /** Cleaning each piece and joining the results with tabs is deleting the
      quotes from the joined pieces. */
  lemma {:induction false} JoinCleanedFields(parts: seq<string>)
    ensures Join(MapSeq(CleanField, parts), '\t') == DeleteAll(Join(parts, '\t'), Quote)
  {
    var m := MapSeq(CleanField, parts);
    if |parts| == 1 {
      CleanFieldDeletesQuotes(parts[0]);
    } else if |parts| > 1 {
      var rest := parts[1..];
      assert m[1..] == MapSeq(CleanField, rest);
      JoinCleanedFields(rest);
      CleanFieldDeletesQuotes(parts[0]);
      DeleteAllAppend(parts[0] + ['\t'], Join(rest, '\t'), Quote);
      DeleteAllAppend(parts[0], ['\t'], Quote);
      DeleteQuotesFromTab();
    }
  }

  /** The cleaned fields of one data line: trimmed, unwrapped, split at
      tabs, each field cleaned. Joined back with tabs they are the
      unwrapped line without its quotes, so with `Strings.SplitJoin` each
      field is fixed (`FieldsBySplit`). */
  function Fields(line: string): (fields: seq<string>)
    ensures |fields| == multiset(StripOuterQuotes(Trim(line)))['\t'] + 1
    ensures forall f <- fields :: Quote !in f && '\t' !in f
    ensures Join(fields, '\t') == DeleteAll(StripOuterQuotes(Trim(line)), Quote)
  {
    var parts := Split(StripOuterQuotes(Trim(line)), '\t');
    JoinCleanedFields(parts);
    CleanedFieldsHaveNoTabs(parts);
    MapSeq(CleanField, parts)
  }

  /** Cleaning pieces without tabs gives fields without tabs. */
  lemma CleanedFieldsHaveNoTabs(parts: seq<string>)
    requires forall p <- parts :: '\t' !in p
    ensures forall f <- MapSeq(CleanField, parts) :: '\t' !in f
  {
    var fields := MapSeq(CleanField, parts);
    forall i | 0 <= i < |fields| ensures '\t' !in fields[i] {
      assert parts[i] in parts;
      CleanFieldKeepsTabs(parts[i]);
    }
  }

  /** The fields are the tab-separated pieces of the unwrapped line with
      every quote deleted. */
  lemma FieldsBySplit(line: string)
    ensures Fields(line) == Split(DeleteAll(StripOuterQuotes(Trim(line)), Quote), '\t')
  {
    SplitJoin(Fields(line), '\t');
  }

  /** `parseFloat(field.replace(',', '.')) || 0`: the first comma is read as
      the decimal point. */
  function ParseAmount(field: string): real {
    ParseFloat(ReplaceFirst(field, ',', '.')).GetOr(0.0)
  }

  /** An amount written with a decimal comma reads as the number it
      denotes; anything after the fraction digits that is not a digit is
      ignored. */
  lemma ParseAmountDecimalComma(ip: string, f: string, t: string)
    requires ip != [] && AllDigits(ip) && AllDigits(f)
    requires t == [] || !IsDigit(t[0])
    ensures ParseAmount(ip + "," + f + t) == DecimalValue(ip, f)
  {
    assert ',' !in ip by {
      forall k | 0 <= k < |ip| ensures ip[k] != ',' {
        assert IsDigit(ip[k]);
      }
    }
    assert ip + "," + f + t == ip + [','] + (f + t);
    ReplaceFirstAt(ip, ',', '.', f + t);
    assert ip + ['.'] + (f + t) == ip + "." + f + t;
    ParseFloatOfNumeral(ip, f, t);
  }

  /** A digit string holds no comma. */
  lemma NoCommaInDigits(ip: string)
    requires AllDigits(ip)
    ensures ',' !in ip
  {
    forall k | 0 <= k < |ip| ensures ip[k] != ',' {
      assert IsDigit(ip[k]);
    }
  }

  /** A whole amount, with no separator, reads as its digits; what follows
      them is ignored when it holds no comma and does not start a fraction. */
  lemma ParseAmountOfDigits(ip: string, t: string)
    requires ip != [] && AllDigits(ip)
    requires t == [] || (!IsDigit(t[0]) && t[0] != '.')
    requires ',' !in t
    ensures ParseAmount(ip + t) == DigitsValue(ip) as real
  {
    NoCommaInDigits(ip);
    ReplaceFirstAbsent(ip + t, ',', '.');
    ParseFloatOfDigits(ip, t);
  }

  /** A negative amount with a decimal comma reads as the negated number. */
  lemma ParseAmountNegativeDecimalComma(ip: string, f: string, t: string)
    requires ip != [] && AllDigits(ip) && AllDigits(f)
    requires t == [] || !IsDigit(t[0])
    ensures ParseAmount("-" + ip + "," + f + t) == -DecimalValue(ip, f)
  {
    var x := "-" + ip;
    NoCommaInDigits(ip);
    assert ',' !in x;
    assert "-" + ip + "," + f + t == x + [','] + (f + t);
    ReplaceFirstAt(x, ',', '.', f + t);
    var u := ip + "." + f + t;
    assert x + ['.'] + (f + t) == "-" + u;
    ParseFloatNegated(u);
    UnsignedDecimalOfNumeral(ip, f, t);
  }

  /** Spaces in front of an amount change nothing. */
  lemma ParseAmountSkipsSpaces(w: string, field: string)
    requires forall i :: 0 <= i < |w| ==> IsSpace(w[i])
    ensures ParseAmount(w + field) == ParseAmount(field)
  {
    assert ',' !in w by {
      forall k | 0 <= k < |w| ensures w[k] != ',' {
        assert IsSpace(w[k]);
      }
    }
    ReplaceFirstAfter(w, field, ',', '.');
    ParseFloatSkipsSpaces(w, ReplaceFirst(field, ',', '.'));
  }

  /** The record the first five fields make; later fields are not read. */
  function ToRecord(values: seq<string>): DailyRecord
    requires |values| >= 5
  {
    DailyRecord(
      Trim(values[0]),
      ParseInt(values[1]).GetOr(0),
      ParseAmount(values[2]),
      ParseAmount(values[3]),
      ParseAmount(values[4]))
  }

  /** The record of one data line, or none when it has fewer than five
      fields. */
  function ParseLine(line: string): Option<DailyRecord> {
    var values := Fields(line);
    if |values| < 5 then None else Some(ToRecord(values))
  }

  /** The values that are present, in order: the `filter` that drops the
      `null` of a skipped line. */
  function Present<T>(xs: seq<Option<T>>): (r: seq<T>)
    ensures |r| <= |xs|
    ensures forall x <- r :: Some(x) in xs
  {
    if xs == [] then []
    else
      var rest := Present(xs[1..]);
      assert forall x <- rest :: Some(x) in xs by {
        forall x <- rest ensures Some(x) in xs {
          assert Some(x) in xs[1..];
        }
      }
      match xs[0]
      case Some(x) => [x] + rest
      case None => rest
  }

  /** JavaScript's `map` on arrays. */
  function MapSeq<A, B>(f: A -> B, xs: seq<A>): (r: seq<B>)
    ensures |r| == |xs| && forall i :: 0 <= i < |xs| ==> r[i] == f(xs[i])
  {
    seq(|xs|, i requires 0 <= i < |xs| => f(xs[i]))
  }

  lemma MapSeqAppend<A, B>(f: A -> B, a: seq<A>, b: seq<A>)
    ensures MapSeq(f, a + b) == MapSeq(f, a) + MapSeq(f, b)
  {
  }

  /** The records of the data lines: each line read, skipped lines dropped. */
  function ParseLines(lines: seq<string>): seq<DailyRecord> {
    Present(MapSeq(ParseLine, lines))
  }

  /** `parseCSV(text)`: the text is trimmed and cut into lines; without a
      second line there is nothing; otherwise the first line is dropped and
      every other line read. */
  function ParseCsv(text: string): (rs: seq<DailyRecord>)
    ensures '\n' !in Trim(text) ==> rs == []
    ensures |rs| <= multiset(Trim(text))['\n']
  {
    var lines := Split(Trim(text), '\n');
    if |lines| < 2 then [] else ParseLines(lines[1..])
  }

  /** A data line gives a record exactly when it has at least four tabs
      once trimmed and unwrapped, so a blank line gives none. */
  lemma ParseLineFieldCount(line: string)
    ensures ParseLine(line).Some? <==> multiset(StripOuterQuotes(Trim(line)))['\t'] >= 4
  {
  }

  /** Fields after the fifth do not change the record. */
  lemma ExtraFieldsIgnored(values: seq<string>, extra: seq<string>)
    requires |values| >= 5
    ensures ToRecord(values + extra) == ToRecord(values)
  {
  }

  /** Filtering a concatenation filters each part. */
  lemma {:induction false} PresentAppend<T>(a: seq<Option<T>>, b: seq<Option<T>>)
    ensures Present(a + b) == Present(a) + Present(b)
  {
    if a == [] {
      assert a + b == b;
    } else {
      assert (a + b)[0] == a[0] && (a + b)[1..] == a[1..] + b;
      PresentAppend(a[1..], b);
    }
  }

  /** Reading lines one after the other: records keep the order of their
      lines. */
  lemma ParseLinesAppend(a: seq<string>, b: seq<string>)
    ensures ParseLines(a + b) == ParseLines(a) + ParseLines(b)
  {
    MapSeqAppend(ParseLine, a, b);
    PresentAppend(MapSeq(ParseLine, a), MapSeq(ParseLine, b));
  }

  /** At most one record per line, and each record is that of some line. */
  lemma ParseLinesFromLines(lines: seq<string>)
    ensures |ParseLines(lines)| <= |lines|
    ensures forall r <- ParseLines(lines) :: exists l <- lines :: ParseLine(l) == Some(r)
  {
    var m := MapSeq(ParseLine, lines);
    forall r <- ParseLines(lines) ensures exists l <- lines :: ParseLine(l) == Some(r) {
      var i :| 0 <= i < |m| && m[i] == Some(r);
      assert lines[i] in lines;
    }
  }

  /** One line gives one record when it has five fields, none otherwise. */
  lemma ParseOneLine(line: string)
    ensures ParseLines([line]) == if |Fields(line)| >= 5 then [ToRecord(Fields(line))] else []
  {
    PresentOne(MapSeq(ParseLine, [line]));
  }

  lemma PresentOne<T>(xs: seq<Option<T>>)
    requires |xs| == 1
    ensures Present(xs) == if xs[0].Some? then [xs[0].value] else []
  {
    assert xs[1..] == [];
  }

  /** The first line is a header whatever it says: the records are those of
      the lines after it. */
  lemma HeaderIgnored(text: string, header: string, body: string)
    requires Trim(text) == header + "\n" + body && '\n' !in header
    ensures ParseCsv(text) == ParseLines(Split(body, '\n'))
  {
    SplitAtFirstSep(header, '\n', body);
    assert header + "\n" + body == header + ['\n'] + body;
  }
}
