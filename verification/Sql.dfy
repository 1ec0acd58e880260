/**
  The SQL text the driver sends: quoting, the streaming queries and the tail
  query, and what a server reads them as.
 */
module Sql {
  import opened Common
  import opened Pieces
  import opened SqlReader

  // --------------------------------------------------------------------- quoting

  /** Every occurrence of `c` in `s` becomes `sub`. */
  function Replace(s: string, c: char, sub: string): string {
    if s == [] then [] else (if s[0] == c then sub else [s[0]]) + Replace(s[1..], c, sub)
  }

  function QuoteIdent(s: string): string {
    "`" + Replace(s, '`', "``") + "`"
  }

  /** Backslashes are doubled first, then quotes get a backslash. */
  function QuoteString(s: string): string {
    "'" + Replace(Replace(s, '\\', "\\\\"), '\'', "\\'") + "'"
  }

  /** The same escaping in one pass over the characters. */
  function Escape(s: string): string {
    if s == [] then []
    else (if s[0] == '\\' then "\\\\" else if s[0] == '\'' then "\\'" else [s[0]]) + Escape(s[1..])
  }

  lemma {:induction false} ReplaceConcat(a: string, b: string, c: char, sub: string)
    ensures Replace(a + b, c, sub) == Replace(a, c, sub) + Replace(b, c, sub)
  {
    if a == [] {
      assert a + b == b;
    } else {
      ReplaceConcat(a[1..], b, c, sub);
      assert (a + b)[1..] == a[1..] + b;
      Associate(if a[0] == c then sub else [a[0]], Replace(a[1..], c, sub), Replace(b, c, sub));
    }
  }

  /** The second replacement never touches what the first one wrote. */
  lemma {:induction false} TwoPassesAreOne(s: string)
    ensures QuoteString(s) == "'" + Escape(s) + "'"
  {
    if s != [] {
      TwoPassesAreOne(s[1..]);
      Unwrap(Replace(Replace(s[1..], '\\', "\\\\"), '\'', "\\'"), Escape(s[1..]));
      var first := if s[0] == '\\' then "\\\\" else [s[0]];
      ReplaceConcat(first, Replace(s[1..], '\\', "\\\\"), '\'', "\\'");
      if s[0] == '\\' {
        assert Replace("\\\\", '\'', "\\'") == "\\" + Replace("\\", '\'', "\\'");
      }
    }
  }

  lemma Unwrap(a: string, b: string)
    requires "'" + a + "'" == "'" + b + "'"
    ensures a == b
  {
    assert a == ("'" + a + "'")[1..|a| + 1];
    assert |a| == |b|;
    assert b == ("'" + b + "'")[1..|b| + 1];
  }

  // ------------------------------------------------------------ reading SQL tokens

  /** The names an identifier reader gives back: a backslash is written bare, so an escaping reader changes it. */
  predicate Survives(name: string, escapes: bool) {
    escapes ==> '\\' !in name
  }

  lemma EscapedText(s: string, rest: string)
    requires s != []
    ensures
      var first := if s[0] == '\\' then "\\\\" else if s[0] == '\'' then "\\'" else [s[0]];
      var text, after := Escape(s) + "'" + rest, Escape(s[1..]) + "'" + rest;
      text == first + after && text[|first|..] == after
  {
  }

  lemma {:induction false} LexEscaped(s: string, rest: string)
    requires rest != [] ==> rest[0] != '\''
    ensures LexLiteral(Escape(s) + "'" + rest) == Some((s, rest))
  {
    var text := Escape(s) + "'" + rest;
    if s == [] {
      assert text == "'" + rest;
      assert text[1..] == rest;
    } else {
      EscapedText(s, rest);
      LexEscaped(s[1..], rest);
      assert s == [s[0]] + s[1..];
    }
  }

  /** Reading a quoted string gives back exactly the string and what follows it. */
  lemma StringRoundTrip(s: string, rest: string)
    requires rest != [] ==> rest[0] != '\''
    ensures ReadString(QuoteString(s) + rest) == Some((s, rest))
  {
    TwoPassesAreOne(s);
    LexEscaped(s, rest);
    assert QuoteString(s) + rest == "'" + (Escape(s) + "'" + rest);
    assert (QuoteString(s) + rest)[1..] == Escape(s) + "'" + rest;
  }

  lemma {:induction false} LexDoubled(s: string, rest: string, escapes: bool)
    requires (rest != [] ==> rest[0] != '`') && Survives(s, escapes)
    ensures LexName(Replace(s, '`', "``") + "`" + rest, escapes) == Some((s, rest))
  {
    var text := Replace(s, '`', "``") + "`" + rest;
    if s == [] {
      assert text == "`" + rest;
      assert text[1..] == rest;
    } else {
      LexDoubled(s[1..], rest, escapes);
      var first := if s[0] == '`' then "``" else [s[0]];
      var after := Replace(s[1..], '`', "``") + "`" + rest;
      assert text == first + after;
      assert text[|first|..] == after;
      assert s == [s[0]] + s[1..];
    }
  }

  function Count(c: char, s: string): nat {
    if s == [] then 0 else (if s[0] == c then 1 else 0) + Count(c, s[1..])
  }

  lemma {:induction false} CountIsZero(c: char, s: string)
    ensures Count(c, s) == 0 <==> c !in s
  {
    if s != [] {
      CountIsZero(c, s[1..]);
      assert s == [s[0]] + s[1..];
    }
  }

  lemma CountCons(c: char, first: char, s: string)
    ensures Count(c, [first] + s) == (if first == c then 1 else 0) + Count(c, s)
  {
    assert ([first] + s)[1..] == s;
  }

  lemma {:induction false} ReplaceLength(s: string, c: char, sub: string)
    requires |sub| == 2
    ensures |Replace(s, c, sub)| == |s| + Count(c, s)
  {
    if s != [] {
      ReplaceLength(s[1..], c, sub);
    }
  }

  lemma {:induction false} EscapeLength(s: string)
    ensures |Escape(s)| == |s| + Count('\'', s) + Count('\\', s)
  {
    if s != [] {
      EscapeLength(s[1..]);
    }
  }

  /** A backtick or, for an escaping reader, a backslash in a name takes two characters to write. */
  lemma {:induction false} NameCost(text: string, escapes: bool)
    ensures
      match LexName(text, escapes)
      case None => true
      case Some((s, rest)) =>
        |text| - |rest| >= |s| + 1 + Count('`', s) + (if escapes then Count('\\', s) else 0)
  {
    if text != [] {
      var pair := (escapes && text[0] == '\\') || (text[0] == '`' && |text| >= 2 && text[1] == '`');
      if pair && |text| >= 2 {
        NameCost(text[2..], escapes);
      } else {
        NameCost(text[1..], escapes);
      }
      match LexName(text, escapes) {
        case None =>
        case Some((s, _)) =>
          if s != [] {
            CountCons('`', s[0], s[1..]);
            CountCons('\\', s[0], s[1..]);
          }
      }
    }
  }

  /** And so does a quote or a backslash in a literal. */
  lemma {:induction false} LiteralCost(text: string)
    ensures
      match LexLiteral(text)
      case None => true
      case Some((s, rest)) => |text| - |rest| >= |s| + 1 + Count('\'', s) + Count('\\', s)
  {
    if text != [] {
      var pair := text[0] == '\\' || (text[0] == '\'' && |text| >= 2 && text[1] == '\'');
      if pair && |text| >= 2 {
        LiteralCost(text[2..]);
      } else {
        LiteralCost(text[1..]);
      }
      match LexLiteral(text) {
        case None =>
        case Some((s, _)) =>
          if s != [] {
            CountCons('\'', s[0], s[1..]);
            CountCons('\\', s[0], s[1..]);
          }
      }
    }
  }

  lemma QuotedLengths(s: string)
    ensures |QuoteIdent(s)| == |s| + 2 + Count('`', s)
    ensures |QuoteString(s)| == |s| + 2 + Count('\'', s) + Count('\\', s)
  {
    ReplaceLength(s, '`', "``");
    TwoPassesAreOne(s);
    EscapeLength(s);
  }

  lemma IdentCost(text: string, escapes: bool)
    ensures
      match ReadIdent(text, escapes)
      case None => true
      case Some((s, rest)) => |text| - |rest| >= |QuoteIdent(s)| + (if escapes then Count('\\', s) else 0)
  {
    match StripPrefix("`", text) {
      case None =>
      case Some(t) =>
        NameCost(t, escapes);
        match LexName(t, escapes) {
          case None =>
          case Some((s, _)) => QuotedLengths(s);
        }
    }
  }

  /**
    Reading a quoted identifier gives back exactly the name and what follows it,
    on a server with backslash escapes in identifiers if and only if the name has
    no backslash.
   */
  lemma IdentRoundTrip(s: string, rest: string, escapes: bool)
    requires rest != [] ==> rest[0] != '`'
    ensures ReadIdent(QuoteIdent(s) + rest, escapes) == Some((s, rest)) <==> Survives(s, escapes)
  {
    if Survives(s, escapes) {
      LexDoubled(s, rest, escapes);
      assert (QuoteIdent(s) + rest)[1..] == Replace(s, '`', "``") + "`" + rest;
    } else {
      CountIsZero('\\', s);
      IdentCost(QuoteIdent(s) + rest, escapes);
    }
  }

  // --------------------------------------------------------------------- queries

  const SELECT_FROM := "SELECT * FROM "
  const WHERE_PARTITION := " WHERE _partition_id = "
  const FORMAT_TSV := " FORMAT TabSeparatedWithNames"
  const ORDER_BY := " ORDER BY "
  const LIMIT := " LIMIT "

  function Decimal(n: nat): string {
    if n < 10 then ["0123456789"[n]] else Decimal(n / 10) + ["0123456789"[n % 10]]
  }

  /** The LIMIT in a query reads as the number of rows asked for. */
  lemma {:induction false} DecimalRoundTrip(n: nat)
    ensures ReadDecimal(Decimal(n)) == n
    ensures Decimal(n) != "" && forall i :: 0 <= i < |Decimal(n)| ==> '0' <= Decimal(n)[i] <= '9'
  {
    assert DigitValue("0123456789"[n % 10]) == n % 10;
    if n >= 10 {
      DecimalRoundTrip(n / 10);
      assert Decimal(n)[..|Decimal(n)| - 1] == Decimal(n / 10);
    } else {
      assert Decimal(n)[..0] == "";
    }
  }

  function FilterText(partition: Option<string>): string {
    match partition case Some(part) => WHERE_PARTITION + QuoteString(part) case None => ""
  }

  function SourceText(db: string, tbl: string, partition: Option<string>): string {
    SELECT_FROM + QuoteIdent(db) + "." + QuoteIdent(tbl) + FilterText(partition)
  }

  function StreamAll(db: string, tbl: string): string {
    SourceText(db, tbl, None) + FORMAT_TSV
  }

  function StreamPartition(db: string, tbl: string, partition: string): string {
    SourceText(db, tbl, Some(partition)) + FORMAT_TSV
  }

  function SelectTail(db: string, tbl: string, orderExpr: string, partition: Option<string>, limit: nat): string {
    SourceText(db, tbl, partition) + ORDER_BY + OrderClause(orderExpr) + LIMIT + Decimal(limit) + FORMAT_TSV
  }

  /** The condition that stands for a partition. */
  function PartitionFilter(partition: Option<string>): Option<Filter> {
    match partition case Some(part) => Some(Filter("_partition_id", part)) case None => None
  }

  lemma ColumnIsWord()
    ensures WHERE_PARTITION == " WHERE " + "_partition_id" + " = "
    ensures forall i :: 0 <= i < |"_partition_id"| ==> IsWordChar("_partition_id"[i])
  {
  }

  lemma FilterRoundTrip(partition: Option<string>, rest: string)
    requires |rest| >= 2 && rest[0] == ' ' && rest[1] != 'W'
    ensures ReadFilter(FilterText(partition) + rest) == Some((PartitionFilter(partition), rest))
    ensures (FilterText(partition) + rest)[0] == ' '
  {
    match partition
    case None =>
      assert FilterText(partition) + rest == rest;
      assert " WHERE "[1] == 'W';
    case Some(part) => PartitionReads(part, rest);
  }

  lemma PartitionReads(part: string, rest: string)
    requires rest != [] ==> rest[0] != '\''
    ensures ReadFilter(WHERE_PARTITION + QuoteString(part) + rest) == Some((Some(Filter("_partition_id", part)), rest))
    ensures (WHERE_PARTITION + QuoteString(part) + rest)[0] == ' '
  {
    hide StripPrefix, CutWord, ReadString, QuoteString;
    var t3 := QuoteString(part) + rest;
    var t2 := " = " + t3;
    ColumnIsWord();
    FilterLayout(" WHERE ", "_partition_id", " = ", QuoteString(part), rest);
    StripJoined(" WHERE ", "_partition_id" + t2);
    WordJoined("_partition_id", t2);
    StripJoined(" = ", t3);
    StringRoundTrip(part, rest);
  }

  lemma FilterLayout(where: string, column: string, eq: string, value: string, rest: string)
    ensures where + column + eq + value + rest == where + (column + (eq + (value + rest)))
  {
  }

  lemma StringCost(text: string)
    ensures
      match ReadString(text)
      case None => true
      case Some((s, rest)) => |text| - |rest| >= |QuoteString(s)|
  {
    match StripPrefix("'", text) {
      case None =>
      case Some(t) =>
        LiteralCost(t);
        match LexLiteral(t) {
          case None =>
          case Some((s, _)) => QuotedLengths(s);
        }
    }
  }

  lemma FilterCost(text: string)
    ensures
      match ReadFilter(text)
      case None => true
      case Some((None, rest)) => rest == text
      case Some((Some(filter), rest)) => |text| - |rest| >= 10 + |filter.column| + |QuoteString(filter.value)|
  {
    hide StripPrefix, CutWord, ReadString, QuoteString;
    StripLength(" WHERE ", text);
    match StripPrefix(" WHERE ", text) {
      case None =>
      case Some(t1) =>
        WordLength(t1);
        var t2 := CutWord(t1).1;
        StripLength(" = ", t2);
        match StripPrefix(" = ", t2) {
          case None =>
          case Some(t3) => StringCost(t3);
        }
    }
  }

  /** Characters a filter takes to write. */
  function FilterSize(filter: Option<Filter>): nat {
    match filter case None => 0 case Some(f) => 10 + |f.column| + |QuoteString(f.value)|
  }

  /** Reading a source takes as many characters as writing it, and more with a backslash in a name. */
  lemma SourceCost(text: string, escapes: bool)
    ensures
      match ReadSource(text, escapes)
      case None => true
      case Some((db, tbl, filter, rest)) =>
        |text| - |rest| >=
          15 + |QuoteIdent(db)| + |QuoteIdent(tbl)| + FilterSize(filter)
          + (if escapes then Count('\\', db) + Count('\\', tbl) else 0)
  {
    hide StripPrefix, ReadIdent, ReadFilter, QuoteIdent, QuoteString;
    match StripPrefix("SELECT * FROM ", text) {
      case None =>
      case Some(t1) =>
        StripLength("SELECT * FROM ", text);
        IdentCost(t1, escapes);
        match ReadIdent(t1, escapes) {
          case None =>
          case Some((_, t2)) =>
            StripLength(".", t2);
            match StripPrefix(".", t2) {
              case None =>
              case Some(t3) =>
                IdentCost(t3, escapes);
                match ReadIdent(t3, escapes) {
                  case None =>
                  case Some((_, t4)) => FilterCost(t4);
                }
            }
        }
    }
  }

  lemma SourceSize(db: string, tbl: string, partition: Option<string>)
    ensures |SourceText(db, tbl, partition)|
         == 15 + |QuoteIdent(db)| + |QuoteIdent(tbl)| + FilterSize(PartitionFilter(partition))
  {
    hide QuoteIdent, QuoteString;
  }

  /**
    Database, table and partition can be read back from the query, whatever the
    partition holds, if and only if the names survive the reader.
   */
  lemma {:induction false} SourceRoundTrip(
      db: string, tbl: string, partition: Option<string>, rest: string, escapes: bool)
    requires |rest| >= 2 && rest[0] == ' ' && rest[1] != 'W'
    ensures ReadSource(SourceText(db, tbl, partition) + rest, escapes)
         == Some((db, tbl, PartitionFilter(partition), rest))
       <==> Survives(db, escapes) && Survives(tbl, escapes)
  {
    if Survives(db, escapes) && Survives(tbl, escapes) {
      SourceReadsBack(db, tbl, partition, rest, escapes);
    } else {
      CountIsZero('\\', db);
      CountIsZero('\\', tbl);
      SourceCost(SourceText(db, tbl, partition) + rest, escapes);
      SourceSize(db, tbl, partition);
    }
  }

  lemma SourceReadsBack(db: string, tbl: string, partition: Option<string>, rest: string, escapes: bool)
    requires |rest| >= 2 && rest[0] == ' ' && rest[1] != 'W'
    requires Survives(db, escapes) && Survives(tbl, escapes)
    ensures ReadSource(SourceText(db, tbl, partition) + rest, escapes)
         == Some((db, tbl, PartitionFilter(partition), rest))
  {
    var t4 := FilterText(partition) + rest;
    var t3 := QuoteIdent(tbl) + t4;
    var t2 := "." + t3;
    var t1 := QuoteIdent(db) + t2;
    SourceLayout(SELECT_FROM, QuoteIdent(db), QuoteIdent(tbl), FilterText(partition), rest);
    FilterRoundTrip(partition, rest);
    StripJoined("SELECT * FROM ", t1);
    IdentRoundTrip(db, t2, escapes);
    StripJoined(".", t3);
    IdentRoundTrip(tbl, t4, escapes);
  }

  lemma SourceLayout(select: string, db: string, tbl: string, filter: string, rest: string)
    ensures (select + db + "." + tbl + filter) + rest == select + (db + ("." + (tbl + (filter + rest))))
  {
  }

  /** Different databases, tables or partitions give different partition queries. */
  lemma StreamPartitionInjective(
      db1: string, tbl1: string, part1: string, db2: string, tbl2: string, part2: string)
    requires StreamPartition(db1, tbl1, part1) == StreamPartition(db2, tbl2, part2)
    ensures db1 == db2 && tbl1 == tbl2 && part1 == part2
  {
    SourceReadsBack(db1, tbl1, Some(part1), FORMAT_TSV, false);
    SourceReadsBack(db2, tbl2, Some(part2), FORMAT_TSV, false);
  }

  lemma TailLayout(source: string, order: string, clause: string, limit: string, n: string, format: string)
    ensures source + order + clause + limit + n + format == source + (order + clause + limit + n + format)
  {
  }

  /** The text of the tail query after its source. */
  function TailText(orderExpr: string, limit: nat): string {
    ORDER_BY + OrderClause(orderExpr) + LIMIT + Decimal(limit) + FORMAT_TSV
  }

  /** The tail query reads from exactly the table and partition the handle was opened on. */
  lemma TailSource(
      db: string, tbl: string, orderExpr: string, partition: Option<string>, limit: nat, escapes: bool)
    requires Survives(db, escapes) && Survives(tbl, escapes)
    ensures ReadSource(SelectTail(db, tbl, orderExpr, partition, limit), escapes)
         == Some((db, tbl, PartitionFilter(partition), TailText(orderExpr, limit)))
  {
    var rest := TailText(orderExpr, limit);
    TailLayout(SourceText(db, tbl, partition), ORDER_BY, OrderClause(orderExpr), LIMIT, Decimal(limit), FORMAT_TSV);
    assert rest[0] == ' ' && rest[1] == 'O';
    SourceReadsBack(db, tbl, partition, rest, escapes);
  }

  // ---------------------------------------------------------------- ordering clause

  /** Unicode white space. */
  predicate IsSpace(c: char) {
    || '\t' <= c <= '\r' || c == ' ' || c == '\U{85}' || c == '\U{A0}' || c == '\U{1680}'
    || '\U{2000}' <= c <= '\U{200A}' || c == '\U{2028}' || c == '\U{2029}' || c == '\U{202F}'
    || c == '\U{205F}' || c == '\U{3000}'
  }

  function TrimStart(s: string): string {
    if s != [] && IsSpace(s[0]) then TrimStart(s[1..]) else s
  }

  function TrimEnd(s: string): string {
    if s != [] && IsSpace(s[|s| - 1]) then TrimEnd(s[..|s| - 1]) else s
  }

  function Trim(s: string): string {
    TrimEnd(TrimStart(s))
  }

  /** The 25 characters with the Unicode property White_Space. */
  predicate WhiteSpace(c: char) {
    c in "\t\n\U{B}\U{C}\r \U{85}\U{A0}\U{1680}" || c in "\U{2000}\U{2001}\U{2002}\U{2003}\U{2004}\U{2005}"
    || c in "\U{2006}\U{2007}\U{2008}\U{2009}\U{200A}\U{2028}\U{2029}\U{202F}\U{205F}\U{3000}"
  }

  lemma SpacesAreWhite(c: char)
    ensures IsSpace(c) <==> WhiteSpace(c)
  {
    var low, wide := "\t\n\U{B}\U{C}\r \U{85}\U{A0}\U{1680}", "\U{2000}\U{2001}\U{2002}\U{2003}\U{2004}\U{2005}";
    var rest := "\U{2006}\U{2007}\U{2008}\U{2009}\U{200A}\U{2028}\U{2029}\U{202F}\U{205F}\U{3000}";
    if '\t' <= c <= '\r' {
      assert low[c as int - 9] == c;
    } else if c == ' ' || c == '\U{85}' || c == '\U{A0}' || c == '\U{1680}' {
      assert low[5] == ' ' && low[6] == '\U{85}' && low[7] == '\U{A0}' && low[8] == '\U{1680}';
    } else if '\U{2000}' <= c <= '\U{2005}' {
      assert wide[c as int - 0x2000] == c;
    } else if '\U{2006}' <= c <= '\U{200A}' {
      assert rest[c as int - 0x2006] == c;
    } else if IsSpace(c) {
      assert rest[5] == '\U{2028}' && rest[6] == '\U{2029}' && rest[7] == '\U{202F}' && rest[8] == '\U{205F}'
             && rest[9] == '\U{3000}';
    }
  }

  lemma {:induction false} TrimStartCuts(s: string) returns (i: nat)
    ensures i <= |s| && TrimStart(s) == s[i..]
    ensures forall k :: 0 <= k < i ==> WhiteSpace(s[k])
    ensures i < |s| ==> !WhiteSpace(s[i])
  {
    hide WhiteSpace, IsSpace;
    i := 0;
    if s != [] {
      SpacesAreWhite(s[0]);
      if IsSpace(s[0]) {
        var j := TrimStartCuts(s[1..]);
        i := j + 1;
      }
    }
  }

  lemma {:induction false} TrimEndCuts(s: string) returns (j: nat)
    ensures j <= |s| && TrimEnd(s) == s[..j]
    ensures forall k :: j <= k < |s| ==> WhiteSpace(s[k])
    ensures j > 0 ==> !WhiteSpace(s[j - 1])
  {
    hide WhiteSpace, IsSpace;
    j := |s|;
    if s != [] {
      SpacesAreWhite(s[|s| - 1]);
      if IsSpace(s[|s| - 1]) {
        j := TrimEndCuts(s[..|s| - 1]);
      }
    }
  }

  /** Trimming cuts exactly the white space at both ends. */
  lemma TrimCuts(s: string) returns (i: nat, j: nat)
    ensures i <= j <= |s| && Trim(s) == s[i..j]
    ensures forall k :: 0 <= k < i || (i < j && j <= k < |s|) ==> WhiteSpace(s[k])
    ensures i == j ==> forall k :: 0 <= k < |s| ==> WhiteSpace(s[k])
    ensures i < j ==> !WhiteSpace(s[i]) && !WhiteSpace(s[j - 1])
  {
    hide WhiteSpace, TrimStart, TrimEnd;
    i := TrimStartCuts(s);
    var rest := s[i..];
    var n := TrimEndCuts(rest);
    j := i + n;
    assert rest[..n] == s[i..j];
    forall k | j <= k < |s| ensures WhiteSpace(s[k]) {
      assert s[k] == rest[k - i];
    }
    if n > 0 {
      assert rest[n - 1] == s[j - 1];
    }
  }

  const DESC := " DESC"

  function Descending(columns: seq<string>): (r: seq<string>)
    ensures |r| == |columns|
    ensures forall i :: 0 <= i < |columns| ==> r[i] == columns[i] + DESC
  {
    if columns == [] then [] else [columns[0] + DESC] + Descending(columns[1..])
  }

  function TrimAll(pieces: seq<string>): (r: seq<string>)
    ensures |r| == |pieces|
    ensures forall i :: 0 <= i < |pieces| ==> r[i] == Trim(pieces[i])
  {
    if pieces == [] then [] else [Trim(pieces[0])] + TrimAll(pieces[1..])
  }

  /** DESC on every comma-separated piece of the key, or once on an empty key or `tuple()`. */
  function OrderClause(orderExpr: string): string {
    var trimmed := Trim(orderExpr);
    if trimmed == "" || trimmed == "tuple()" then trimmed + DESC
    else Join(", ", Descending(TrimAll(Split(',', trimmed))))
  }

  /** How a key is written: its column expressions separated by a comma and a space. */
  function KeyText(columns: seq<string>): string {
    Join(", ", columns)
  }

  /** The clause that sorts the other way on every column of the key. */
  function PerColumnDesc(columns: seq<string>): string {
    Join(", ", Descending(columns))
  }

  predicate IsColumn(c: string) {
    c != "" && !IsSpace(c[0]) && !IsSpace(c[|c| - 1])
  }

  ghost predicate IsKey(columns: seq<string>) {
    columns != [] && forall i :: 0 <= i < |columns| ==> IsColumn(columns[i])
  }

  // ------------------------------------------------------- counting characters

  function Commas(s: string): nat {
    if s == [] then 0 else (if s[0] == ',' then 1 else 0) + Commas(s[1..])
  }

  /** Characters that are not white space. */
  function Ink(s: string): nat {
    if s == [] then 0 else (if IsSpace(s[0]) then 0 else 1) + Ink(s[1..])
  }

  lemma {:induction false} CountConcat(a: string, b: string)
    ensures Commas(a + b) == Commas(a) + Commas(b) && Ink(a + b) == Ink(a) + Ink(b)
  {
    if a == [] {
      assert a + b == b;
    } else {
      CountConcat(a[1..], b);
      assert (a + b)[1..] == a[1..] + b;
    }
  }

  function TotalCommas(pieces: seq<string>): nat {
    if pieces == [] then 0 else Commas(pieces[0]) + TotalCommas(pieces[1..])
  }

  function TotalInk(pieces: seq<string>): nat {
    if pieces == [] then 0 else Ink(pieces[0]) + TotalInk(pieces[1..])
  }

  lemma {:induction false} CountJoin(sep: string, pieces: seq<string>)
    requires pieces != [] && Commas(sep) == 1 && Ink(sep) == 1
    ensures Commas(Join(sep, pieces)) == TotalCommas(pieces) + |pieces| - 1
    ensures Ink(Join(sep, pieces)) == TotalInk(pieces) + |pieces| - 1
  {
    if |pieces| > 1 {
      CountJoin(sep, pieces[1..]);
      CountConcat(pieces[0] + sep, Join(sep, pieces[1..]));
      CountConcat(pieces[0], sep);
    }
  }

  lemma {:induction false} CommasInSplit(s: string)
    ensures |Split(',', s)| == Commas(s) + 1
  {
    if s != [] {
      CommasInSplit(s[1..]);
    }
  }

  lemma {:induction false} InkTrimStart(s: string)
    ensures Ink(TrimStart(s)) == Ink(s)
  {
    if s != [] && IsSpace(s[0]) {
      InkTrimStart(s[1..]);
    }
  }

  lemma {:induction false} InkTrimEnd(s: string)
    ensures Ink(TrimEnd(s)) == Ink(s)
  {
    if s != [] && IsSpace(s[|s| - 1]) {
      InkTrimEnd(s[..|s| - 1]);
      CountConcat(s[..|s| - 1], [s[|s| - 1]]);
      assert s == s[..|s| - 1] + [s[|s| - 1]];
    }
  }

  lemma {:induction false} InkTrimAll(pieces: seq<string>)
    ensures TotalInk(TrimAll(pieces)) == TotalInk(pieces)
  {
    if pieces != [] {
      InkTrimAll(pieces[1..]);
      InkTrimStart(pieces[0]);
      InkTrimEnd(TrimStart(pieces[0]));
    }
  }

  lemma {:induction false} InkDescending(pieces: seq<string>)
    ensures TotalInk(Descending(pieces)) == TotalInk(pieces) + 4 * |pieces|
  {
    if pieces != [] {
      InkDescending(pieces[1..]);
      CountConcat(pieces[0], DESC);
      assert Ink(DESC) == 4;
    }
  }

  lemma {:induction false} NoCommas(pieces: seq<string>)
    ensures TotalCommas(pieces) == 0 <==> Free(',', pieces)
  {
    if pieces != [] {
      NoCommas(pieces[1..]);
      NoCommaIn(pieces[0]);
      assert pieces == [pieces[0]] + pieces[1..];
    }
  }

  lemma {:induction false} NoCommaIn(s: string)
    ensures Commas(s) == 0 <==> ',' !in s
  {
    if s != [] {
      NoCommaIn(s[1..]);
      assert s == [s[0]] + s[1..];
    }
  }

  // -------------------------------------------------- what the clause comes out as

  lemma {:induction false} KeyTextEnds(columns: seq<string>)
    requires IsKey(columns)
    ensures IsColumn(KeyText(columns))
  {
    if |columns| > 1 {
      KeyTextEnds(columns[1..]);
    }
  }

  lemma TrimColumn(c: string)
    requires IsColumn(c)
    ensures Trim(c) == c && Trim(" " + c) == c
  {
    assert (" " + c)[1..] == c;
    assert TrimStart(" " + c) == TrimStart(c);
  }

  /** The pieces the code splits a comma-free key into, leading spaces included. */
  function Spaced(columns: seq<string>): (r: seq<string>)
    requires columns != []
    ensures |r| == |columns| && r[0] == columns[0]
    ensures forall i :: 1 <= i < |columns| ==> r[i] == " " + columns[i]
  {
    if |columns| == 1 then columns
    else [columns[0], " " + columns[1]] + Spaced(columns[1..])[1..]
  }

  lemma {:induction false} KeyTextPieces(columns: seq<string>)
    requires columns != []
    ensures KeyText(columns) == Join(",", Spaced(columns))
  {
    if |columns| > 1 {
      KeyTextPieces(columns[1..]);
      var rest := Spaced(columns[1..]);
      assert Spaced(columns)[1..] == [" " + columns[1]] + rest[1..];
      assert Join(",", [" " + columns[1]] + rest[1..]) == " " + Join(",", rest) by {
        assert ([" " + columns[1]] + rest[1..])[1..] == rest[1..];
      }
    }
  }

  lemma SplitKey(columns: seq<string>)
    requires IsKey(columns) && Free(',', columns)
    ensures TrimAll(Split(',', KeyText(columns))) == columns
  {
    KeyTextPieces(columns);
    var pieces := Spaced(columns);
    assert Free(',', pieces);
    SplitJoin(',', pieces);
    forall i | 0 <= i < |columns| ensures Trim(pieces[i]) == columns[i] {
      TrimColumn(columns[i]);
    }
  }

  lemma CommaFreeKey(columns: seq<string>)
    requires IsKey(columns) && Free(',', columns)
    ensures OrderClause(KeyText(columns)) == PerColumnDesc(columns)
  {
    var text := KeyText(columns);
    KeyTextEnds(columns);
    TrimColumn(text);
    SplitKey(columns);
    if text == "tuple()" {
      TupleKey(columns);
    }
  }

  lemma TupleKey(columns: seq<string>)
    requires columns != [] && KeyText(columns) == "tuple()"
    ensures PerColumnDesc(columns) == "tuple()" + DESC
  {
    assert Commas("tuple()") == 0 && Commas(", ") == 1 && Ink(", ") == 1;
    CountJoin(", ", columns);
    assert Descending(columns) == ["tuple()" + DESC];
  }

  lemma KeyWithComma(columns: seq<string>)
    requires IsKey(columns) && !Free(',', columns)
    ensures Ink(OrderClause(KeyText(columns))) > Ink(PerColumnDesc(columns))
  {
    var text := KeyText(columns);
    KeyTextEnds(columns);
    TrimColumn(text);
    NoCommas(columns);
    assert Commas(", ") == 1 && Ink(", ") == 1;
    CountJoin(", ", columns);
    CommasInSplit(text);
    assert Commas("tuple()") == 0;
    var pieces := Split(',', text);
    SplitInk(pieces, text);
    CountJoin(", ", Descending(TrimAll(pieces)));
    CountJoin(", ", Descending(columns));
    InkDescending(TrimAll(pieces));
    InkDescending(columns);
    InkTrimAll(pieces);
  }

  /**
    The generated clause puts DESC on every key column exactly when no column
    expression contains a comma; a function call with two arguments is cut in two.
   */
  lemma {:induction false} OrderClauseIsPerColumn(columns: seq<string>)
    requires IsKey(columns)
    ensures OrderClause(KeyText(columns)) == PerColumnDesc(columns) <==> Free(',', columns)
  {
    if Free(',', columns) {
      CommaFreeKey(columns);
    } else {
      KeyWithComma(columns);
    }
  }

  lemma {:induction false} SplitInk(pieces: seq<string>, text: string)
    requires pieces == Split(',', text)
    ensures Ink(text) == TotalInk(pieces) + |pieces| - 1
  {
    JoinSplit(',', text);
    assert Ink([',']) == 1 && Commas([',']) == 1;
    CountJoin([','], pieces);
  }

  // ----------------------------------------------------------- reading the clause

  function DescItems(columns: seq<string>): (r: seq<OrderItem>)
    ensures |r| == |columns|
    ensures forall i :: 0 <= i < |columns| ==> r[i] == OrderItem(columns[i], true)
  {
    if columns == [] then [] else [OrderItem(columns[0], true)] + DescItems(columns[1..])
  }

  lemma ReadDesc(c: string)
    requires IsColumn(c)
    ensures ReadOrderItem(c + DESC) == OrderItem(c, true)
    ensures ReadOrderItem(" " + (c + DESC)) == OrderItem(c, true)
  {
    var t := c + DESC;
    assert t[0] == c[0] != ' ';
    assert (" " + t)[1..] == t;
    SuffixJoined(c, " DESC");
  }

  /** A server reading the generated clause sorts descending by each key column in turn. */
  lemma ClauseSortsDescending(columns: seq<string>)
    requires IsKey(columns) && Free(',', columns)
    ensures ReadOrderBy(OrderClause(KeyText(columns))) == DescItems(columns)
  {
    OrderClauseIsPerColumn(columns);
    var desc := Descending(columns);
    KeyTextPieces(desc);
    var pieces := Spaced(desc);
    assert Free(',', pieces);
    SplitJoin(',', pieces);
    forall i | 0 <= i < |columns| ensures ReadOrderItem(pieces[i]) == OrderItem(columns[i], true) {
      ReadDesc(columns[i]);
    }
  }

  // ---------------------------------------------------------- reading whole queries

  /** A format clause reads as the format, whatever stands before it. */
  lemma FormatRoundTrip(head: string)
    ensures ReadFormat(head + FORMAT_TSV) == Some((head, "TabSeparatedWithNames"))
  {
    var t := head + " FORMAT ";
    assert head + FORMAT_TSV == t + "TabSeparatedWithNames";
    assert t[|t| - 1] == ' ';
    FormatIsWord();
    LastWordJoined(t, "TabSeparatedWithNames");
    SuffixJoined(head, " FORMAT ");
  }

  lemma FormatIsWord()
    ensures forall i :: 0 <= i < |"TabSeparatedWithNames"| ==> IsWordChar("TabSeparatedWithNames"[i])
  {
  }

  /** The partition file's query reads as all columns of that partition's rows, tab-separated with a header. */
  lemma StreamPartitionReads(db: string, tbl: string, part: string, escapes: bool)
    requires Survives(db, escapes) && Survives(tbl, escapes)
    ensures ReadQuery(StreamPartition(db, tbl, part), escapes)
         == Some(Query(db, tbl, Some(Filter("_partition_id", part)), None, None, "TabSeparatedWithNames"))
  {
    hide ReadSource, ReadFormat, SourceText;
    SourceReadsBack(db, tbl, Some(part), FORMAT_TSV, escapes);
    FormatRoundTrip("");
    assert "" + FORMAT_TSV == FORMAT_TSV;
  }

  /** And the whole-table file's query as all columns of all rows. */
  lemma StreamAllReads(db: string, tbl: string, escapes: bool)
    requires Survives(db, escapes) && Survives(tbl, escapes)
    ensures ReadQuery(StreamAll(db, tbl), escapes) == Some(Query(db, tbl, None, None, None, "TabSeparatedWithNames"))
  {
    hide ReadSource, ReadFormat, SourceText;
    SourceReadsBack(db, tbl, None, FORMAT_TSV, escapes);
    FormatRoundTrip("");
    assert "" + FORMAT_TSV == FORMAT_TSV;
  }

  lemma OrderAndLimitRoundTrip(orderExpr: string, limit: nat)
    ensures ReadOrderAndLimit(ORDER_BY + OrderClause(orderExpr) + LIMIT + Decimal(limit))
         == Some((Some(ReadOrderBy(OrderClause(orderExpr))), Some(limit)))
  {
    hide StripPrefix, StripSuffix, CutLastWord, ReadOrderBy, OrderClause, ReadDecimal, Decimal;
    var clause, digits := OrderClause(orderExpr), Decimal(limit);
    var head := clause + " LIMIT ";
    OrderLayout(clause, digits);
    StripJoined(" ORDER BY ", head + digits);
    DecimalRoundTrip(limit);
    assert head[|head| - 1] == ' ';
    LastWordJoined(head, digits);
    SuffixJoined(clause, " LIMIT ");
  }

  lemma OrderLayout(clause: string, digits: string)
    ensures ORDER_BY + clause + LIMIT + digits == " ORDER BY " + ((clause + " LIMIT ") + digits)
    ensures ORDER_BY + clause + LIMIT + digits != ""
  {
  }

  /**
    The tail query as a whole reads back, for every order expression: the source
    it was built for, the items of its clause, the limit, and the format.
   */
  lemma TailQueryRoundTrip(
      db: string, tbl: string, orderExpr: string, partition: Option<string>, limit: nat, escapes: bool)
    requires Survives(db, escapes) && Survives(tbl, escapes)
    ensures
      var items := ReadOrderBy(OrderClause(orderExpr));
      var filter := match partition case Some(part) => Some(Filter("_partition_id", part)) case None => None;
      ReadQuery(SelectTail(db, tbl, orderExpr, partition, limit), escapes)
      == Some(Query(db, tbl, filter, Some(items), Some(limit), "TabSeparatedWithNames"))
  {
    hide ReadSource, ReadFormat, ReadOrderAndLimit, SelectTail, OrderClause, ReadOrderBy;
    TailSource(db, tbl, orderExpr, partition, limit, escapes);
    FormatRoundTrip(ORDER_BY + OrderClause(orderExpr) + LIMIT + Decimal(limit));
    OrderAndLimitRoundTrip(orderExpr, limit);
  }

  /** For a key it asks for the rows of that source, descending by each column in turn, up to the limit. */
  lemma TailQueryOfKey(
      db: string, tbl: string, columns: seq<string>, partition: Option<string>, limit: nat, escapes: bool)
    requires Survives(db, escapes) && Survives(tbl, escapes) && IsKey(columns) && Free(',', columns)
    ensures
      var filter := match partition case Some(part) => Some(Filter("_partition_id", part)) case None => None;
      ReadQuery(SelectTail(db, tbl, KeyText(columns), partition, limit), escapes)
      == Some(Query(db, tbl, filter, Some(DescItems(columns)), Some(limit), "TabSeparatedWithNames"))
  {
    hide ReadQuery, SelectTail, OrderClause, ReadOrderBy, IsKey, Free;
    TailQueryRoundTrip(db, tbl, KeyText(columns), partition, limit, escapes);
    ClauseSortsDescending(columns);
  }

  /** A key column that is a call of two arguments is cut at its comma. */
  lemma CallIsCutInTwo()
    ensures OrderClause(KeyText(["f(a, b)"])) == "f(a" + DESC + ", " + ("b)" + DESC)
    ensures PerColumnDesc(["f(a, b)"]) == "f(a, b)" + DESC
  {
    hide Split, Trim, Free;
    CallPieces();
    CallTrims();
    JoinTwo(TrimAll(["f(a", " b)"]), "f(a", "b)");
  }

  lemma CallPieces()
    ensures Split(',', "f(a, b)") == ["f(a", " b)"]
  {
    var pieces := ["f(a", " b)"];
    assert Join(",", pieces) == "f(a, b)" by {
      assert pieces[1..] == [" b)"];
    }
    SplitJoin(',', pieces);
  }

  lemma CallTrims()
    ensures Trim("f(a, b)") == "f(a, b)" && Trim("f(a") == "f(a" && Trim(" b)") == "b)"
    ensures "f(a, b)" != "tuple()"
  {
    hide Trim;
    TrimColumn("f(a, b)");
    TrimColumn("f(a");
    TrimColumn("b)");
    assert " " + "b)" == " b)";
  }

  lemma JoinTwo(pieces: seq<string>, first: string, second: string)
    requires |pieces| == 2 && pieces[0] == first && pieces[1] == second
    ensures Join(", ", Descending(pieces)) == first + DESC + ", " + (second + DESC)
  {
    assert Descending(pieces)[1..] == [second + DESC];
  }
}
