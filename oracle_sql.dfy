/** The Oracle-specific text the translators build themselves: the TO_DATE literal for a
    date, the quote fix-up applied to the builder's output, and the pieces of the rownum
    pagination wrapper, with a small filter language that says what the wrapper selects. */
module OracleSql {
  import opened JsValues
  import opened TextOps

  // ---------------------------------------------------------------- dates

  function Zeros(k: nat): (s: string)
    ensures |s| == k && forall i :: 0 <= i < k ==> s[i] == '0'
  {
    seq(k, _ => '0')
  }

  /** n in decimal, left-padded with zeros to at least `width` digits. */
  function Pad(n: nat, width: nat): (s: string)
    ensures width <= |s|
    ensures forall i :: 0 <= i < |s| ==> IsDigit(s[i])
  {
    var d := Digits(n);
    if |d| < width then Zeros(width - |d|) + d else d
  }

  function Pow10(k: nat): nat {
    if k == 0 then 1 else 10 * Pow10(k - 1)
  }

  lemma {:induction false} DigitsFit(n: nat, width: nat)
    requires 1 <= width && n < Pow10(width)
    ensures |Digits(n)| <= width
    decreases width
  {
    if n >= 10 {
      assert width > 1;
      DigitsFit(n / 10, width - 1);
    }
  }

  /** A number below 10^width is printed with exactly `width` characters. */
  lemma PadExact(n: nat, width: nat)
    requires 1 <= width && n < Pow10(width)
    ensures |Pad(n, width)| == width
  {
    DigitsFit(n, width);
  }

  /** The year as toISOString prints it: four digits in 0..9999, otherwise a sign and six digits. */
  function YearText(y: int): string {
    if 0 <= y <= 9999 then Pad(y, 4)
    else if y < 0 then "-" + Pad(-y, 6)
    else "+" + Pad(y, 6)
  }

  /** The calendar date as toISOString prints it: year, month, day. */
  function IsoDate(d: DateTime): string {
    YearText(d.year) + "-" + Pad(d.month, 2) + "-" + Pad(d.day, 2)
  }

  /** The wall-clock time as toISOString prints it: hours, minutes, seconds. */
  function IsoTime(d: DateTime): string {
    Pad(d.hour, 2) + ":" + Pad(d.minute, 2) + ":" + Pad(d.second, 2)
  }

  /** Date.prototype.toISOString: YYYY-MM-DDTHH:mm:ss.sssZ in UTC. */
  function IsoString(d: DateTime): string {
    IsoDate(d) + "T" + IsoTime(d) + "." + Pad(d.millisecond, 3) + "Z"
  }

  /** Characters an ISO date string is made of: no quote among them. */
  predicate IsoChar(c: char) {
    IsDigit(c) || c in "+-T:.Z"
  }

  predicate IsoText(s: string) {
    forall i :: 0 <= i < |s| ==> IsoChar(s[i])
  }

  lemma IsoTextConcat(a: string, b: string)
    requires IsoText(a) && IsoText(b)
    ensures IsoText(a + b)
  {
    forall i | 0 <= i < |a + b| ensures IsoChar((a + b)[i]) {
      if i >= |a| { assert (a + b)[i] == b[i - |a|]; }
    }
  }

  lemma IsoDateChars(d: DateTime)
    ensures 10 <= |IsoDate(d)| && IsoText(IsoDate(d)) && IsoDate(d)[0] != 'T'
  {
    var y := YearText(d.year);
    assert IsoText(y) && 4 <= |y| && y[0] != 'T';
    IsoTextConcat(y, "-");
    IsoTextConcat(y + "-", Pad(d.month, 2));
    IsoTextConcat(y + "-" + Pad(d.month, 2), "-");
    IsoTextConcat(y + "-" + Pad(d.month, 2) + "-", Pad(d.day, 2));
  }

  lemma IsoTimeChars(d: DateTime)
    ensures IsoText(IsoTime(d))
  {
    IsoTextConcat(Pad(d.hour, 2), ":");
    IsoTextConcat(Pad(d.hour, 2) + ":", Pad(d.minute, 2));
    IsoTextConcat(Pad(d.hour, 2) + ":" + Pad(d.minute, 2), ":");
    IsoTextConcat(Pad(d.hour, 2) + ":" + Pad(d.minute, 2) + ":", Pad(d.second, 2));
  }

  lemma IsoStringChars(d: DateTime)
    ensures 24 <= |IsoString(d)|
    ensures IsoText(IsoString(d))
    ensures IsoString(d)[0] != 'T'
  {
    IsoDateChars(d);
    IsoTimeChars(d);
    var dt := IsoDate(d);
    var tm := IsoTime(d);
    var ms := Pad(d.millisecond, 3);
    IsoTextConcat(dt, "T");
    IsoTextConcat(dt + "T", tm);
    IsoTextConcat(dt + "T" + tm, ".");
    IsoTextConcat(dt + "T" + tm + ".", ms);
    IsoTextConcat(dt + "T" + tm + "." + ms, "Z");
  }

  const DateMask := "yyyy-mm-dd hh24:mi:ss"

  /** Characters 0 to 9 of the ISO string. */
  function DatePart(d: DateTime): string {
    IsoStringChars(d);
    IsoString(d)[..10]
  }

  /** Characters 11 to 18 of the ISO string. */
  function TimePart(d: DateTime): string {
    IsoStringChars(d);
    IsoString(d)[11..19]
  }

  /** What the date literal puts between its first pair of quotes. */
  function DateTimeText(d: DateTime): string {
    DatePart(d) + " " + TimePart(d)
  }

  /** The Oracle call a date value is turned into:
      TO_DATE('<date part> <time part>', 'yyyy-mm-dd hh24:mi:ss'). */
  function DateLiteral(d: DateTime): string {
    CallWith(DateTimeText(d), DateMask)
  }

  /** The fields of a date as toISOString can produce them, for years with four digits. */
  predicate FourDigitYear(d: DateTime) {
    0 <= d.year <= 9999 && d.month < 100 && d.day < 100 && d.hour < 100 && d.minute < 100
    && d.second < 100 && d.millisecond < 1000
  }

  lemma IsoPartsLength(d: DateTime)
    requires FourDigitYear(d)
    ensures |IsoDate(d)| == 10 && |IsoTime(d)| == 8
  {
    assert Pow10(2) == 100;
    assert Pow10(4) == 10000;
    PadExact(d.year, 4);
    PadExact(d.month, 2);
    PadExact(d.day, 2);
    PadExact(d.hour, 2);
    PadExact(d.minute, 2);
    PadExact(d.second, 2);
  }

  /** Cutting a ten-character date and an eight-character time back out of the ISO layout. */
  lemma IsoSlices(date: string, time: string, ms: string)
    requires |date| == 10 && |time| == 8
    ensures (date + "T" + time + "." + ms + "Z")[..10] == date
    ensures (date + "T" + time + "." + ms + "Z")[11..19] == time
  {
    var iso := date + "T" + time + "." + ms + "Z";
    assert iso == date + ("T" + time + "." + ms + "Z");
    assert iso[11..] == time + ("." + ms + "Z");
    assert iso[11..19] == iso[11..][..8];
  }

  /** For a four-digit year the literal's text is `<yyyy>-<mm>-<dd> <hh>:<mi>:<ss>`, the
      layout of the format mask it carries. */
  lemma DateLiteralMatchesMask(d: DateTime)
    requires FourDigitYear(d)
    ensures DatePart(d) == Pad(d.year, 4) + "-" + Pad(d.month, 2) + "-" + Pad(d.day, 2)
    ensures TimePart(d) == Pad(d.hour, 2) + ":" + Pad(d.minute, 2) + ":" + Pad(d.second, 2)
  {
    IsoPartsLength(d);
    IsoSlices(IsoDate(d), IsoTime(d), Pad(d.millisecond, 3));
  }

  // ---------------------------------------------------------------- quote fix-up

  /** The final pass of the translator: every `'TO_DATE` becomes `TO_DATE`, then every
      `')'` becomes `')`, both scanning left to right. */
  function Fixup(s: string): string {
    ReplaceAll(ReplaceAll(s, "'TO_DATE", "TO_DATE"), "')'", "')")
  }

  predicate QuoteFree(s: string) {
    forall i :: 0 <= i < |s| ==> s[i] != '\''
  }

  /** A pattern that starts with a quote cannot straddle the end of a quote-free text. */
  lemma QuoteFreeNoStraddle(a: string, b: string, pat: string)
    requires pat != [] && pat[0] == '\'' && QuoteFree(a)
    ensures NoStraddle(a, b, pat)
  {
    forall j | 0 <= j < |a| && |a| - j < |pat|
      ensures !StartsWith(a[j..] + b, pat)
    {
      if |pat| <= |a[j..] + b| {
        assert (a[j..] + b)[..|pat|][0] == a[j];
      }
    }
  }

  /** A pattern cannot straddle into a text whose first character occurs nowhere in the
      pattern after its first position. */
  lemma FirstCharNoStraddle(a: string, b: string, pat: string)
    requires b != [] && forall k :: 1 <= k < |pat| ==> pat[k] != b[0]
    ensures NoStraddle(a, b, pat)
  {
    forall j | 0 <= j < |a| && |a| - j < |pat|
      ensures !StartsWith(a[j..] + b, pat)
    {
      var k := |a| - j;
      if |pat| <= |a[j..] + b| {
        assert (a[j..] + b)[..|pat|][k] == b[0];
      }
    }
  }

  /** One step over a quote-free run followed by a quote that does not start the pattern. */
  lemma QuoteStep(q: string, rest: string, pat: string, rep: string)
    requires |pat| >= 2 && pat[0] == '\'' && QuoteFree(q)
    requires !StartsWith("'" + rest, pat)
    ensures ReplaceAll(q + "'" + rest, pat, rep) == q + "'" + ReplaceAll(rest, pat, rep)
  {
    QuoteFreeNoStraddle(q, "'" + rest, pat);
    assert q + "'" + rest == q + ("'" + rest);
    ReplaceAllConcat(q, "'" + rest, pat, rep);
    ReplaceAllNoFirstChar(q, pat, rep);
    assert NoStraddle("'", rest, pat) by {
      assert "'"[0..] == "'";
    }
    ReplaceAllConcat("'", rest, pat, rep);
    ReplaceAllShort("'", pat, rep);
  }

  /** A quote followed by a character other than the pattern's second does not start it. */
  lemma QuoteThenOther(rest: string, pat: string)
    requires |pat| >= 2 && rest != [] && rest[0] != pat[1]
    ensures !StartsWith("'" + rest, pat)
  {
    if |pat| <= |"'" + rest| {
      assert ("'" + rest)[..|pat|][1] == rest[0];
    }
  }

  /** `', '<mask>')`: what follows the date text in the literal. */
  function TailWith(mask: string): string {
    "'" + ", " + "'" + mask + "'" + ")"
  }

  /** `TO_DATE('<text>', '<mask>')`. */
  function CallWith(text: string, mask: string): string {
    "TO_DATE(" + "'" + text + TailWith(mask)
  }

  lemma DateMaskQuoteFree()
    ensures QuoteFree(DateMask) && DateMask != [] && DateMask[0] == 'y'
  {
  }

  /** The date literal in one piece, as the translator writes it. */
  lemma CallWithDateMask(text: string)
    ensures CallWith(text, DateMask) == "TO_DATE('" + text + "', 'yyyy-mm-dd hh24:mi:ss')"
  {
    assert TailWith(DateMask) == "', 'yyyy-mm-dd hh24:mi:ss')";
  }

  /** A quote in front of a text that does not begin with w does not begin `'w`. */
  lemma QuoteBeforeOther(post: string, w: string)
    requires !StartsWith(post, w)
    ensures !StartsWith("'" + post, "'" + w)
  {
    if |w| + 1 <= |"'" + post| {
      assert ("'" + post)[..|w| + 1] == "'" + post[..|w|];
      assert ("'" + w)[1..] == w;
      assert ("'" + post[..|w|])[1..] == post[..|w|];
    }
  }

  /** A leading quote that does not start the pattern is kept. */
  lemma LeadingQuote(rest: string, pat: string, rep: string)
    requires |pat| >= 2 && pat[0] == '\''
    requires !StartsWith("'" + rest, pat)
    ensures ReplaceAll("'" + rest, pat, rep) == "'" + ReplaceAll(rest, pat, rep)
  {
    assert ("'" + rest)[1..] == rest;
  }

  lemma TailRegroup(mask: string, y: string)
    ensures "'" + (", " + "'" + (mask + "'" + (")" + "'" + y))) == TailWith(mask) + "'" + y
    ensures "'" + (", " + "'" + (mask + ("')'" + y))) == TailWith(mask) + "'" + y
    ensures "'" + (", " + "'" + (mask + ("')" + y))) == TailWith(mask) + y
  {
  }

  /** A quote-led pattern whose second character is none of `,`, the mask's first and `)` is
      not found in the tail of the literal, nor across its end when the quote that follows
      does not start it. */
  lemma PassOverTail(mask: string, post: string, pat: string, rep: string)
    requires QuoteFree(mask) && mask != []
    requires |pat| >= 2 && pat[0] == '\'' && pat[1] != ',' && pat[1] != mask[0] && pat[1] != ')'
    requires !StartsWith("'" + post, pat)
    ensures ReplaceAll(TailWith(mask) + "'" + post, pat, rep) == TailWith(mask) + "'" + ReplaceAll(post, pat, rep)
  {
    var r5 := ")" + "'" + post;
    var r4 := mask + "'" + r5;
    var r3 := ", " + "'" + r4;
    QuoteStep(")", post, pat, rep);
    QuoteThenOther(r5, pat);
    QuoteStep(mask, r5, pat, rep);
    QuoteThenOther(r4, pat);
    QuoteStep(", ", r4, pat, rep);
    QuoteThenOther(r3, pat);
    LeadingQuote(r3, pat, rep);
    TailRegroup(mask, post);
    TailRegroup(mask, ReplaceAll(post, pat, rep));
  }

  /** The second pass drops the quote that follows the tail of the literal and nothing else. */
  lemma SecondPassOnTail(mask: string, rest: string)
    requires QuoteFree(mask) && mask != [] && mask[0] != ')'
    ensures ReplaceAll(TailWith(mask) + "'" + rest, "')'", "')") == TailWith(mask) + ReplaceAll(rest, "')'", "')")
  {
    var p2 := "')'";
    var s4 := mask + (p2 + rest);
    var s3 := ", " + "'" + s4;
    QuoteFreeNoStraddle(mask, p2 + rest, p2);
    ReplaceAllConcat(mask, p2 + rest, p2, "')");
    ReplaceAllNoFirstChar(mask, p2, "')");
    ReplaceAllAtStart(p2, rest, "')");
    QuoteThenOther(s4, p2);
    QuoteStep(", ", s4, p2, "')");
    QuoteThenOther(s3, p2);
    LeadingQuote(s3, p2, "')");
    TailRegroup(mask, rest);
    TailRegroup(mask, ReplaceAll(rest, p2, "')"));
  }

  lemma CallRegroup(text: string, mask: string, y: string)
    ensures "'" + CallWith(text, mask) + "'" + y == "'TO_DATE" + ("(" + "'" + (text + (TailWith(mask) + "'" + y)))
    ensures CallWith(text, mask) + "'" + y == "TO_DATE(" + "'" + (text + (TailWith(mask) + "'" + y))
    ensures "TO_DATE" + ("(" + "'" + (text + (TailWith(mask) + "'" + y))) == CallWith(text, mask) + "'" + y
    ensures "TO_DATE(" + "'" + (text + (TailWith(mask) + y)) == CallWith(text, mask) + y
  {
  }

  /** First pass over a quoted TO_DATE call: the quote in front of it goes, every other quote
      stays, and the text after it is processed on its own. */
  lemma FirstPassOnQuotedCall(text: string, mask: string, post: string)
    requires QuoteFree(text) && (text != [] ==> text[0] != 'T')
    requires QuoteFree(mask) && mask != [] && mask[0] != 'T'
    requires !StartsWith(post, "TO_DATE")
    ensures ReplaceAll("'" + CallWith(text, mask) + "'" + post, "'TO_DATE", "TO_DATE")
         == CallWith(text, mask) + "'" + ReplaceAll(post, "'TO_DATE", "TO_DATE")
  {
    var p1 := "'TO_DATE";
    var t := TailWith(mask) + "'" + post;
    QuoteBeforeOther(post, "TO_DATE");
    PassOverTail(mask, post, p1, "TO_DATE");
    QuoteFreeNoStraddle(text, t, p1);
    ReplaceAllConcat(text, t, p1, "TO_DATE");
    ReplaceAllNoFirstChar(text, p1, "TO_DATE");
    QuoteThenOther(text + t, p1);
    QuoteStep("(", text + t, p1, "TO_DATE");
    var r1 := "(" + "'" + (text + t);
    CallRegroup(text, mask, post);
    ReplaceAllAtStart(p1, r1, "TO_DATE");
    CallRegroup(text, mask, ReplaceAll(post, p1, "TO_DATE"));
  }

  /** Second pass over a TO_DATE call and the closing quote that follows it: only that quote goes. */
  lemma SecondPassOnCall(text: string, mask: string, rest: string)
    requires QuoteFree(text) && (text != [] ==> text[0] != ')')
    requires QuoteFree(mask) && mask != [] && mask[0] != ')'
    ensures ReplaceAll(CallWith(text, mask) + "'" + rest, "')'", "')") == CallWith(text, mask) + ReplaceAll(rest, "')'", "')")
  {
    var p2 := "')'";
    var t := TailWith(mask) + "'" + rest;
    SecondPassOnTail(mask, rest);
    QuoteFreeNoStraddle(text, t, p2);
    ReplaceAllConcat(text, t, p2, "')");
    ReplaceAllNoFirstChar(text, p2, "')");
    QuoteThenOther(text + t, p2);
    QuoteStep("TO_DATE(", text + t, p2, "')");
    CallRegroup(text, mask, rest);
    CallRegroup(text, mask, ReplaceAll(rest, p2, "')"));
  }

  /** Both passes over a quoted TO_DATE call inside a longer text. */
  lemma FixupUnquotesCall(pre: string, text: string, mask: string, post: string)
    requires QuoteFree(text) && (text != [] ==> text[0] != 'T' && text[0] != ')')
    requires QuoteFree(mask) && mask != [] && mask[0] != 'T' && mask[0] != ')'
    requires !StartsWith(post, "TO_DATE")
    ensures Fixup(pre + "'" + CallWith(text, mask) + "'" + post)
         == Fixup(pre) + CallWith(text, mask) + Fixup(post)
  {
    var call := CallWith(text, mask);
    var p1 := "'TO_DATE";
    var p2 := "')'";
    var w := "'" + call + "'" + post;
    FirstCharNoStraddle(pre, w, p1);
    assert pre + "'" + call + "'" + post == pre + w;
    ReplaceAllConcat(pre, w, p1, "TO_DATE");
    FirstPassOnQuotedCall(text, mask, post);
    var pPre := ReplaceAll(pre, p1, "TO_DATE");
    var pPost := ReplaceAll(post, p1, "TO_DATE");
    var v := call + "'" + pPost;
    assert v[0] == 'T';
    FirstCharNoStraddle(pPre, v, p2);
    ReplaceAllConcat(pPre, v, p2, "')");
    SecondPassOnCall(text, mask, pPost);
  }

  /** The quote fix-up undoes the quotes the builder puts around a TO_DATE literal, wherever
      the quoted literal sits in the rendered text, and acts on the text around it on its own;
      the only thing the text after it must not do is begin with `TO_DATE`. */
  lemma FixupUnquotesDateLiteral(pre: string, d: DateTime, post: string)
    requires !StartsWith(post, "TO_DATE")
    ensures Fixup(pre + "'" + DateLiteral(d) + "'" + post) == Fixup(pre) + DateLiteral(d) + Fixup(post)
  {
    IsoStringChars(d);
    var text := DateTimeText(d);
    assert QuoteFree(text) && text[0] != 'T' && text[0] != ')';
    DateMaskQuoteFree();
    FixupUnquotesCall(pre, text, DateMask, post);
  }

  // ---------------------------------------------------------------- pagination wrapper

  /** The derived table that numbers the rows of `table` by physical row order. */
  function PagePrefix(table: string): string {
    "select * from (select " + table + ".*, rownum as pseudo_column from " + table + " order by rowid) a where (1=1) "
  }

  /** A condition of the wrapper, and of the WHERE text, in the order it is appended. */
  datatype Filter =
    | OrdinalAbove(bound: int)
    | OrdinalBelow(bound: int)
    | ColumnEquals(column: string, text: string)

  function FilterText(f: Filter): string {
    match f
    case OrdinalAbove(n) => " and a.pseudo_column > " + IntToString(n) + " "
    case OrdinalBelow(n) => " and a.pseudo_column < " + IntToString(n) + " "
    case ColumnEquals(c, t) => " and " + c + " ='" + t + "' "
  }

  /** The text of each filter, in order. */
  function FilterTexts(fs: seq<Filter>): (ts: seq<string>)
    ensures |ts| == |fs|
    ensures forall i :: 0 <= i < |fs| ==> ts[i] == FilterText(fs[i])
  {
    seq(|fs|, i requires 0 <= i < |fs| => FilterText(fs[i]))
  }

  /** The conditions appended one after another. */
  function FiltersText(fs: seq<Filter>): string {
    Concat(FilterTexts(fs))
  }

  /** One equality per key of a where object, in key order, comparing with the value's text. */
  function EqualityFilters(w: Obj): (fs: seq<Filter>)
    ensures |fs| == |w|
    ensures forall i :: 0 <= i < |w| ==> fs[i] == ColumnEquals(w[i].0, ToStr(w[i].1))
  {
    seq(|w|, i requires 0 <= i < |w| => ColumnEquals(w[i].0, ToStr(w[i].1)))
  }

  /** The number of quote characters in a text. */
  function Quotes(s: string): nat {
    if s == [] then 0 else Quotes(s[..|s| - 1]) + (if s[|s| - 1] == '\'' then 1 else 0)
  }

  lemma {:induction false} QuotesAppend(a: string, b: string)
    ensures Quotes(a + b) == Quotes(a) + Quotes(b)
    decreases |b|
  {
    if b == [] {
      assert a + b == a;
    } else {
      var n := |b| - 1;
      assert (a + b)[..|a + b| - 1] == a + b[..n];
      assert (a + b)[|a + b| - 1] == b[n];
      QuotesAppend(a, b[..n]);
    }
  }

  lemma {:induction false} QuotesNone(s: string)
    ensures Quotes(s) == 0 <==> QuoteFree(s)
  {
    if s != [] {
      var n := |s| - 1;
      QuotesNone(s[..n]);
      if QuoteFree(s) {
        assert QuoteFree(s[..n]) by {
          forall i | 0 <= i < n ensures s[..n][i] != '\'' {
            assert s[..n][i] == s[i];
          }
        }
      }
      if Quotes(s) == 0 {
        forall i | 0 <= i < |s| ensures s[i] != '\'' {
          if i < n {
            assert s[..n][i] == s[i];
          }
        }
      }
    }
  }

  /** The text of an equality holds two quotes, around the value, plus every quote of the column
      name and of the value: exactly two, one literal compared with one column, precisely when
      neither has a quote.  Nothing is escaped, so a quote in a where value closes the literal
      early and the rest of the value is read as SQL. */
  lemma EqualityTextQuotes(c: string, t: string)
    ensures Quotes(FilterText(ColumnEquals(c, t))) == 2 + Quotes(c) + Quotes(t)
    ensures Quotes(FilterText(ColumnEquals(c, t))) == 2 <==> QuoteFree(c) && QuoteFree(t)
  {
    QuotesAppend(" and " + c + " ='" + t, "' ");
    QuotesAppend(" and " + c + " ='", t);
    QuotesAppend(" and " + c, " ='");
    QuotesAppend(" and ", c);
    assert Quotes("' ") == 1 by { assert "' "[..1] == "'"; assert "'"[..0] == ""; }
    assert Quotes(" ='") == 1 by { assert " ='"[..2] == " ="; assert " ="[..1] == " "; assert " "[..0] == ""; }
    assert Quotes(" and ") == 0 by { QuotesNone(" and "); }
    QuotesNone(c);
    QuotesNone(t);
  }

  /** A row as the database compares it: the text of each column.  Comparing with `=` as text
      equality is right for character (VARCHAR2) columns and non-empty literals; Oracle compares
      other column types after converting the literal, and reads an empty literal as NULL. */
  type Row = map<string, string>

  /** What a condition admits.  An equality is read as one comparison of a column with one
      literal, which is what its text says when the column name and the value are quote-free
      (`EqualityTextQuotes`). */
  predicate Admits(f: Filter, ordinal: int, row: Row) {
    match f
    case OrdinalAbove(n) => ordinal > n
    case OrdinalBelow(n) => ordinal < n
    case ColumnEquals(c, t) => c in row && row[c] == t
  }

  /** Conditions are AND-combined. */
  predicate AdmitsAll(fs: seq<Filter>, ordinal: int, row: Row) {
    forall i :: 0 <= i < |fs| ==> Admits(fs[i], ordinal, row)
  }

  /** Every key of the where object has its value's text in the row. */
  predicate MatchesWhere(w: Obj, row: Row) {
    forall i :: 0 <= i < |w| ==> w[i].0 in row && row[w[i].0] == ToStr(w[i].1)
  }

  lemma FiltersTextAppend(fs: seq<Filter>, gs: seq<Filter>)
    ensures FiltersText(fs + gs) == FiltersText(fs) + FiltersText(gs)
  {
    assert FilterTexts(fs + gs) == FilterTexts(fs) + FilterTexts(gs);
    ConcatAppend(FilterTexts(fs), FilterTexts(gs));
  }

  /** The text of one filter more. */
  lemma FiltersTextSnoc(fs: seq<Filter>, f: Filter)
    ensures FiltersText(fs + [f]) == FiltersText(fs) + FilterText(f)
  {
    FiltersTextAppend(fs, [f]);
    assert FilterTexts([f]) == [FilterText(f)];
    ConcatOne(FilterText(f));
  }

  lemma AdmitsAllAppend(fs: seq<Filter>, gs: seq<Filter>, ordinal: int, row: Row)
    ensures AdmitsAll(fs + gs, ordinal, row) <==> AdmitsAll(fs, ordinal, row) && AdmitsAll(gs, ordinal, row)
  {
    if AdmitsAll(fs, ordinal, row) && AdmitsAll(gs, ordinal, row) {
      forall i | 0 <= i < |fs + gs| ensures Admits((fs + gs)[i], ordinal, row) {
        if i >= |fs| { assert (fs + gs)[i] == gs[i - |fs|]; }
      }
    }
    if AdmitsAll(fs + gs, ordinal, row) {
      forall i | 0 <= i < |fs| ensures Admits(fs[i], ordinal, row) {
        assert (fs + gs)[i] == fs[i];
      }
      forall i | 0 <= i < |gs| ensures Admits(gs[i], ordinal, row) {
        assert (fs + gs)[|fs| + i] == gs[i];
      }
    }
  }

  /** The equality filters of a where object admit exactly the rows that match it. */
  lemma EqualityFiltersAdmit(w: Obj, ordinal: int, row: Row)
    ensures AdmitsAll(EqualityFilters(w), ordinal, row) <==> MatchesWhere(w, row)
  {
    var fs := EqualityFilters(w);
    if AdmitsAll(fs, ordinal, row) {
      forall i | 0 <= i < |w| ensures w[i].0 in row && row[w[i].0] == ToStr(w[i].1) {
        assert Admits(fs[i], ordinal, row);
      }
    }
  }
}
