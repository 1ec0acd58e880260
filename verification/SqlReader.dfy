/**
  How a server reads the SQL text it is sent: tokens, the table and filter a
  query selects from, its sort items, row limit and output format.
 */
module SqlReader {
  import opened Common
  import opened Pieces

  // --------------------------------------------------------------------- tokens

  /** The character a backslash escape stands for in a string literal. */
  function Unescape(c: char): char {
    if c == 'n' then '\n' else if c == 't' then '\t' else if c == 'r' then '\r' else if c == '0' then '\0' else c
  }

  /** The rest of a single-quoted literal: its text, and what follows the closing quote. */
  function LexLiteral(text: string): Option<(string, string)> {
    if text == [] then None
    else if text[0] == '\\' then
      if |text| < 2 then None
      else match LexLiteral(text[2..])
           case None => None
           case Some((s, rest)) => Some(([Unescape(text[1])] + s, rest))
    else if text[0] == '\'' then
      if |text| >= 2 && text[1] == '\'' then
        match LexLiteral(text[2..])
        case None => None
        case Some((s, rest)) => Some(("'" + s, rest))
      else Some(([], text[1..]))
    else
      match LexLiteral(text[1..])
      case None => None
      case Some((s, rest)) => Some(([text[0]] + s, rest))
  }

  /**
    The rest of a backticked identifier, where a doubled backtick stands for one.
    A server that also takes backslash escapes in identifiers has `escapes`.
   */
  function LexName(text: string, escapes: bool): Option<(string, string)> {
    if text == [] then None
    else if escapes && text[0] == '\\' then
      if |text| < 2 then None
      else match LexName(text[2..], escapes)
           case None => None
           case Some((s, rest)) => Some(([Unescape(text[1])] + s, rest))
    else if text[0] == '`' then
      if |text| >= 2 && text[1] == '`' then
        match LexName(text[2..], escapes)
        case None => None
        case Some((s, rest)) => Some(("`" + s, rest))
      else Some(([], text[1..]))
    else
      match LexName(text[1..], escapes)
      case None => None
      case Some((s, rest)) => Some(([text[0]] + s, rest))
  }

  function StripPrefix(prefix: string, text: string): Option<string> {
    if prefix <= text then Some(text[|prefix|..]) else None
  }

  function StripSuffix(text: string, suffix: string): Option<string> {
    if |text| >= |suffix| && text[|text| - |suffix|..] == suffix then Some(text[..|text| - |suffix|]) else None
  }

  function ReadString(text: string): Option<(string, string)> {
    match StripPrefix("'", text) case None => None case Some(t) => LexLiteral(t)
  }

  function ReadIdent(text: string, escapes: bool): Option<(string, string)> {
    match StripPrefix("`", text) case None => None case Some(t) => LexName(t, escapes)
  }

  predicate IsDigit(c: char) {
    '0' <= c <= '9'
  }

  predicate IsWordChar(c: char) {
    IsDigit(c) || 'a' <= c <= 'z' || 'A' <= c <= 'Z' || c == '_'
  }

  /** The bare word a text begins with, and the rest. */
  function CutWord(text: string): (string, string) {
    if text != [] && IsWordChar(text[0]) then
      var (word, rest) := CutWord(text[1..]);
      ([text[0]] + word, rest)
    else ([], text)
  }

  /** A text, and the bare word it ends in. */
  function CutLastWord(text: string): (string, string) {
    if text != [] && IsWordChar(text[|text| - 1]) then
      var (head, word) := CutLastWord(text[..|text| - 1]);
      (head, word + [text[|text| - 1]])
    else (text, [])
  }

  function DigitValue(c: char): nat {
    if IsDigit(c) then (c as int) - ('0' as int) else 0
  }

  function ReadDecimal(text: string): nat {
    if text == "" then 0 else 10 * ReadDecimal(text[..|text| - 1]) + DigitValue(text[|text| - 1])
  }

  // --------------------------------------------------------------------- clauses

  /** A condition that a column is equal to a string. */
  datatype Filter = Filter(column: string, value: string)

  datatype OrderItem = OrderItem(column: string, descending: bool)

  datatype Query = Query(
    db: string, tbl: string, filter: Option<Filter>, order: Option<seq<OrderItem>>, limit: Option<nat>, format: string)

  /** The filter of a query, if it has one, and the text after that. */
  function ReadFilter(text: string): Option<(Option<Filter>, string)> {
    match StripPrefix(" WHERE ", text)
    case None => Some((None, text))
    case Some(t1) =>
      var (column, t2) := CutWord(t1);
      match StripPrefix(" = ", t2)
      case None => None
      case Some(t3) =>
        match ReadString(t3)
        case None => None
        case Some((value, rest)) => Some((Some(Filter(column, value)), rest))
  }

  /** The table a query selects all columns of, the rows it is restricted to, and the text after that. */
  function ReadSource(text: string, escapes: bool): Option<(string, string, Option<Filter>, string)> {
    match StripPrefix("SELECT * FROM ", text)
    case None => None
    case Some(t1) =>
      match ReadIdent(t1, escapes)
      case None => None
      case Some((db, t2)) =>
        match StripPrefix(".", t2)
        case None => None
        case Some(t3) =>
          match ReadIdent(t3, escapes)
          case None => None
          case Some((tbl, t4)) =>
            match ReadFilter(t4)
            case None => None
            case Some((filter, rest)) => Some((db, tbl, filter, rest))
  }

  function SkipBlanks(text: string): string {
    if text != [] && text[0] == ' ' then SkipBlanks(text[1..]) else text
  }

  function ReadOrderItem(piece: string): OrderItem {
    var t := SkipBlanks(piece);
    match StripSuffix(t, " DESC")
    case Some(column) => OrderItem(column, true)
    case None => OrderItem(t, false)
  }

  function ReadOrderItems(pieces: seq<string>): (r: seq<OrderItem>)
    ensures |r| == |pieces|
    ensures forall i :: 0 <= i < |pieces| ==> r[i] == ReadOrderItem(pieces[i])
  {
    if pieces == [] then [] else [ReadOrderItem(pieces[0])] + ReadOrderItems(pieces[1..])
  }

  /** The sort items of an ORDER BY clause whose expressions contain no comma. */
  function ReadOrderBy(clause: string): seq<OrderItem> {
    ReadOrderItems(Split(',', clause))
  }

  /** The sort items and row limit between a query's source and its format. */
  function ReadOrderAndLimit(text: string): Option<(Option<seq<OrderItem>>, Option<nat>)> {
    if text == "" then Some((None, None))
    else
      match StripPrefix(" ORDER BY ", text)
      case None => None
      case Some(t) =>
        var (head, digits) := CutLastWord(t);
        match StripSuffix(head, " LIMIT ")
        case None => None
        case Some(clause) => Some((Some(ReadOrderBy(clause)), Some(ReadDecimal(digits))))
  }

  /** The output format a query ends in, and the text before that. */
  function ReadFormat(text: string): Option<(string, string)> {
    var (head, word) := CutLastWord(text);
    match StripSuffix(head, " FORMAT ")
    case None => None
    case Some(rest) => Some((rest, word))
  }

  /** What a query asks for, read from the whole of its text. */
  function ReadQuery(text: string, escapes: bool): Option<Query> {
    match ReadSource(text, escapes)
    case None => None
    case Some((db, tbl, filter, t1)) =>
      match ReadFormat(t1)
      case None => None
      case Some((t2, format)) =>
        match ReadOrderAndLimit(t2)
        case None => None
        case Some((order, limit)) => Some(Query(db, tbl, filter, order, limit, format))
  }

  // -------------------------------------------------------------- reading laws

  lemma StripJoined(prefix: string, rest: string)
    ensures StripPrefix(prefix, prefix + rest) == Some(rest)
  {
  }

  lemma SuffixJoined(head: string, suffix: string)
    ensures StripSuffix(head + suffix, suffix) == Some(head)
  {
  }

  lemma StripLength(prefix: string, text: string)
    ensures StripPrefix(prefix, text).Some? ==> |StripPrefix(prefix, text).value| == |text| - |prefix|
  {
  }

  lemma {:induction false} WordLength(text: string)
    ensures |CutWord(text).0| + |CutWord(text).1| == |text|
  {
    if text != [] && IsWordChar(text[0]) {
      WordLength(text[1..]);
    }
  }

  lemma {:induction false} WordJoined(word: string, rest: string)
    requires forall i :: 0 <= i < |word| ==> IsWordChar(word[i])
    requires rest == [] || !IsWordChar(rest[0])
    ensures CutWord(word + rest) == (word, rest)
  {
    if word == [] {
      assert word + rest == rest;
    } else {
      WordJoined(word[1..], rest);
      assert (word + rest)[1..] == word[1..] + rest;
      assert [word[0]] + word[1..] == word;
    }
  }

  lemma {:induction false} LastWordJoined(head: string, word: string)
    requires head == [] || !IsWordChar(head[|head| - 1])
    requires forall i :: 0 <= i < |word| ==> IsWordChar(word[i])
    ensures CutLastWord(head + word) == (head, word)
  {
    if word == [] {
      assert head + word == head;
    } else {
      var init := word[..|word| - 1];
      LastWordJoined(head, init);
      assert (head + word)[..|head + word| - 1] == head + init;
      assert init + [word[|word| - 1]] == word;
    }
  }
}
