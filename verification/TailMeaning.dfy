/**
  What the materialized tail means: from the server's promise about ORDER BY and
  LIMIT, through the generated clause and the row reversal, to "the last N rows".
 */
module TailMeaning {
  import opened Common
  import opened Pieces
  import Sql
  import opened SqlReader
  import Tsv
  import opened Resolver
  import opened StreamModel
  import opened StreamProperties

  /** A table row: what each key expression is worth on it, and the line it is printed as. */
  datatype Row<!V> = Row(value: string -> V, line: Tsv.Line)

  /** The order of the values: strict, and any two different ones are comparable. */
  ghost predicate TotalOrder<V(!new)>(less: (V, V) -> bool) {
    && (forall x, y :: !(less(x, y) && less(y, x)))
    && (forall x, y, z :: less(x, y) && less(y, z) ==> less(x, z))
    && (forall x, y :: x == y || less(x, y) || less(y, x))
  }

  /** Negative when `a` comes before `b` under the sort items. */
  function CompareBy<V>(less: (V, V) -> bool, items: seq<OrderItem>, a: Row<V>, b: Row<V>): int {
    if items == [] then 0
    else
      var x, y := a.value(items[0].column), b.value(items[0].column);
      if less(x, y) then (if items[0].descending then 1 else -1)
      else if less(y, x) then (if items[0].descending then -1 else 1)
      else CompareBy(less, items[1..], a, b)
  }

  /** Lexicographic comparison of the key tuples, ascending. */
  function CompareKeys<V>(less: (V, V) -> bool, columns: seq<string>, a: Row<V>, b: Row<V>): int {
    if columns == [] then 0
    else
      var x, y := a.value(columns[0]), b.value(columns[0]);
      if less(x, y) then -1 else if less(y, x) then 1 else CompareKeys(less, columns[1..], a, b)
  }

  /** DESC on every column is the exact converse of lexicographic order, for every arity. */
  lemma {:induction false} PerColumnDescIsConverse<V(!new)>(
      less: (V, V) -> bool, columns: seq<string>, a: Row<V>, b: Row<V>)
    requires TotalOrder(less)
    ensures CompareBy(less, Sql.DescItems(columns), a, b) == CompareKeys(less, columns, b, a)
    ensures CompareKeys(less, columns, b, a) == -CompareKeys(less, columns, a, b)
  {
    if columns != [] {
      assert Sql.DescItems(columns)[1..] == Sql.DescItems(columns[1..]);
      PerColumnDescIsConverse(less, columns[1..], a, b);
    }
  }

  /** The items of a clause that says DESC once, at its end. */
  function TrailingDesc(columns: seq<string>): seq<OrderItem> {
    if columns == [] then []
    else [OrderItem(columns[0], |columns| == 1)] + TrailingDesc(columns[1..])
  }

  /** Sorting by the items turns ascending key order around. */
  ghost predicate IsConverse<V(!new)>(less: (V, V) -> bool, items: seq<OrderItem>, columns: seq<string>) {
    forall a: Row<V>, b: Row<V> :: CompareBy(less, items, a, b) == CompareKeys(less, columns, b, a)
  }

  /** DESC at the end alone is the converse for keys of at most one column, and for no other. */
  lemma {:induction false} TrailingDescIsConverse<V(!new)>(less: (V, V) -> bool, columns: seq<string>, low: V, high: V)
    requires TotalOrder(less) && less(low, high)
    ensures IsConverse(less, TrailingDesc(columns), columns) <==> |columns| <= 1
  {
    if |columns| <= 1 {
      assert TrailingDesc(columns) == Sql.DescItems(columns);
      forall a: Row<V>, b: Row<V>
        ensures CompareBy(less, TrailingDesc(columns), a, b) == CompareKeys(less, columns, b, a)
      {
        PerColumnDescIsConverse(less, columns, a, b);
      }
    } else {
      var a, b := Row(_ => low, []), Row(_ => high, []);
      FirstColumnDecides(less, columns, a, b);
      ConverseAt(less, TrailingDesc(columns), columns, a, b);
    }
  }

  lemma ConverseAt<V(!new)>(
      less: (V, V) -> bool, items: seq<OrderItem>, columns: seq<string>, a: Row<V>, b: Row<V>)
    ensures IsConverse(less, items, columns) ==> CompareBy(less, items, a, b) == CompareKeys(less, columns, b, a)
  {
  }

  lemma FirstColumnDecides<V(!new)>(less: (V, V) -> bool, columns: seq<string>, a: Row<V>, b: Row<V>)
    requires TotalOrder(less) && |columns| > 1 && less(a.value(columns[0]), b.value(columns[0]))
    ensures CompareBy(less, TrailingDesc(columns), a, b) == -1 && CompareKeys(less, columns, b, a) == 1
  {
  }

  /** The server's promise for `ORDER BY items LIMIT n`: the first n rows in that order. */
  ghost predicate IsTopN<V>(
      less: (V, V) -> bool, table: seq<Row<V>>, items: seq<OrderItem>, n: nat, answer: seq<Row<V>>)
  {
    && |answer| == Min(n, |table|)
    && multiset(answer) <= multiset(table)
    && (forall i, j :: 0 <= i < j < |answer| ==> CompareBy(less, items, answer[i], answer[j]) <= 0)
    && (forall k, out :: 0 <= k < |answer| && out in multiset(table) - multiset(answer) ==>
          CompareBy(less, items, answer[k], out) <= 0)
  }

  function LinesOf<V>(rows: seq<Row<V>>): (lines: seq<Tsv.Line>)
    ensures |lines| == |rows|
    ensures forall i :: 0 <= i < |rows| ==> lines[i] == rows[i].line
  {
    if rows == [] then [] else [rows[0].line] + LinesOf(rows[1..])
  }

  lemma {:induction false} LinesOfSnoc<V>(rows: seq<Row<V>>, last: Row<V>)
    ensures LinesOf(rows + [last]) == LinesOf(rows) + [last.line]
  {
    if rows != [] {
      LinesOfSnoc(rows[1..], last);
      assert (rows + [last])[1..] == rows[1..] + [last];
    }
  }

  lemma {:induction false} LinesOfReverse<V>(rows: seq<Row<V>>)
    ensures LinesOf(Reverse(rows)) == Reverse(LinesOf(rows))
  {
    if rows != [] {
      LinesOfReverse(rows[1..]);
      LinesOfSnoc(Reverse(rows[1..]), rows[0]);
      assert LinesOf(rows)[1..] == LinesOf(rows[1..]);
    }
  }

  lemma {:induction false} ReversePermutes<T>(s: seq<T>)
    ensures multiset(Reverse(s)) == multiset(s)
  {
    if s != [] {
      ReversePermutes(s[1..]);
      assert s == [s[0]] + s[1..];
    }
  }

  /** `kept` is the last n rows of `table` in ascending key order. */
  ghost predicate IsLastN<V>(
      less: (V, V) -> bool, table: seq<Row<V>>, columns: seq<string>, n: nat, kept: seq<Row<V>>)
  {
    && |kept| == Min(n, |table|)
    && multiset(kept) <= multiset(table)
    && (forall i, j :: 0 <= i < j < |kept| ==> CompareKeys(less, columns, kept[i], kept[j]) <= 0)
    && (forall k, out :: 0 <= k < |kept| && out in multiset(table) - multiset(kept) ==>
          CompareKeys(less, columns, out, kept[k]) <= 0)
  }

  /** The top n rows under per-column DESC, read backwards, are the last n rows of the table. */
  lemma TopNReversedIsLastN<V(!new)>(
      less: (V, V) -> bool, table: seq<Row<V>>, columns: seq<string>, n: nat, answer: seq<Row<V>>)
    requires TotalOrder(less) && IsTopN(less, table, Sql.DescItems(columns), n, answer)
    ensures IsLastN(less, table, columns, n, Reverse(answer))
  {
    hide TotalOrder;
    var kept := Reverse(answer);
    ReversePermutes(answer);
    forall i, j | 0 <= i < j < |kept| ensures CompareKeys(less, columns, kept[i], kept[j]) <= 0 {
      ReverseAt(answer, i);
      ReverseAt(answer, j);
      PerColumnDescIsConverse(less, columns, kept[j], kept[i]);
    }
    forall k, out | 0 <= k < |kept| && out in multiset(table) - multiset(kept)
      ensures CompareKeys(less, columns, out, kept[k]) <= 0
    {
      ReverseAt(answer, k);
      PerColumnDescIsConverse(less, columns, kept[k], out);
    }
  }

  /** The rows of each source a query can name: a table, whole or where a column has a value. */
  type Tables<!V> = (string, string, Option<Filter>) -> seq<Row<V>>

  /** An answer as tab-separated text with a header. */
  function BodyOf<V>(header: Tsv.Line, answer: seq<Row<V>>): seq<Byte> {
    Tsv.Render(header, LinesOf(answer))
  }

  /**
    The server reads the query from its text. It promises the first rows of that
    source in that order, and a header line and one line a row if that is the
    format asked for; of other formats nothing is known.
   */
  ghost predicate Answers<V>(
      less: (V, V) -> bool, tables: Tables<V>, text: string, header: Tsv.Line, answer: seq<Row<V>>, body: seq<Byte>)
  {
    match ReadQuery(text, true)
    case None => false
    case Some(q) =>
      && q.order.Some? && q.limit.Some?
      && IsTopN(less, tables(q.db, q.tbl, q.filter), q.order.value, q.limit.value, answer)
      && (q.format == "TabSeparatedWithNames" ==> body == BodyOf(header, answer))
  }

  /** The rows a handle was opened on. */
  function SourceRows<V>(tables: Tables<V>, db: string, tbl: string, partition: Option<string>): seq<Row<V>> {
    match partition
    case None => tables(db, tbl, None)
    case Some(part) => tables(db, tbl, Some(Filter("_partition_id", part)))
  }

  /**
    For a key, an answer is right exactly when it is the top rows of the handle's
    source under per-column DESC, sent as a header and one line a row.
   */
  lemma AnswerIsTopN<V>(
      less: (V, V) -> bool, tables: Tables<V>, db: string, tbl: string, partition: Option<string>,
      columns: seq<string>, limit: nat, header: Tsv.Line, answer: seq<Row<V>>, body: seq<Byte>)
    requires Sql.IsKey(columns) && Free(',', columns) && ValidDbOrTable(db) && ValidDbOrTable(tbl)
    ensures Answers(less, tables, Sql.SelectTail(db, tbl, Sql.KeyText(columns), partition, limit), header, answer, body)
       <==> && IsTopN(less, SourceRows(tables, db, tbl, partition), Sql.DescItems(columns), limit, answer)
            && body == BodyOf(header, answer)
  {
    hide IsTopN, ReadQuery, Sql.SelectTail, Sql.KeyText, Sql.IsKey, Free, BodyOf;
    Sql.TailQueryOfKey(db, tbl, columns, partition, limit, true);
  }

  /**
    End to end: if the server answers the tail query for what it says, the buffer
    made from the answer's body is the header followed by the last rows, up to the
    limit, of the very source the handle was opened on, ascending by the key.
   */
  lemma TailBufferIsLastRows<V(!new)>(
      less: (V, V) -> bool, tables: Tables<V>, db: string, tbl: string, partition: Option<string>,
      columns: seq<string>, limit: nat, header: Tsv.Line, answer: seq<Row<V>>, body: seq<Byte>)
    requires TotalOrder(less) && Sql.IsKey(columns) && Free(',', columns)
    requires ValidDbOrTable(db) && ValidDbOrTable(tbl)
    requires
      var query := Sql.SelectTail(db, tbl, Sql.KeyText(columns), partition, limit);
      Answers(less, tables, query, header, answer, body)
    requires Free(10, [header] + LinesOf(answer))
    ensures IsLastN(less, SourceRows(tables, db, tbl, partition), columns, limit, Reverse(answer))
    ensures Tsv.ReversedRows(body) == BodyOf(header, Reverse(answer))
  {
    hide TotalOrder, IsTopN, IsLastN, Sql.IsKey, Answers, Sql.SelectTail, Sql.KeyText, Tsv.ReversedRows;
    AnswerIsTopN(less, tables, db, tbl, partition, columns, limit, header, answer, body);
    TopNReversedIsLastN(less, SourceRows(tables, db, tbl, partition), columns, limit, answer);
    Tsv.ReversalOfTable(header, LinesOf(answer));
    LinesOfReverse(answer);
  }

  /**
    And what a reader sees: in a run of reads of which the k-th is the first for an
    offset more than 32 MiB past the cursor, at any later point, consecutive reads
    from the start of the window return exactly the header and the last rows.
   */
  lemma TailWindowShowsLastRows<V(!new)>(
      less: (V, V) -> bool, tables: Tables<V>, db: string, tbl: string, partition: Option<string>,
      columns: seq<string>, limit: nat, header: Tsv.Line, answer: seq<Row<V>>, body: seq<Byte>,
      file: File, reqs: seq<Request>, k: nat, j: nat, sizes: seq<nat>)
    requires TotalOrder(less) && Sql.IsKey(columns) && Free(',', columns)
    requires ValidDbOrTable(db) && ValidDbOrTable(tbl)
    requires
      var query := Sql.SelectTail(db, tbl, Sql.KeyText(columns), partition, limit);
      Answers(less, tables, query, header, answer, body)
    requires Free(10, [header] + LinesOf(answer))
    requires k < |reqs| && k < j <= |reqs| && file.hasTail && reqs[k].offset <= 0xFFFF_FFFF_FFFF_FFFF
    requires reqs[k].offset > ViewAfter(file, reqs[..k]).pos + 32 * 1024 * 1024
    requires forall i :: 0 <= i < k ==> !Queries(file, reqs, i)
    requires reqs[k].materialized == Some(Tsv.ReversedRows(body))
    requires |file.content| + |body| < 0x7FFF_FFFF_FFFF_FFFF && |body| <= Sum(sizes)
    ensures IsLastN(less, SourceRows(tables, db, tbl, partition), columns, limit, Reverse(answer))
    ensures
      ChainBytes(file, ViewAfter(file, reqs[..j]), 0x7FFF_FFFF_FFFF_FFFF - |body|, sizes)
      == BodyOf(header, Reverse(answer))
  {
    hide TotalOrder, IsTopN, IsLastN, Sql.IsKey, Answers, Free, Queries, Tsv.ReversedRows, BodyOf, ChainBytes;
    hide Sql.SelectTail, Sql.KeyText;
    TailBufferIsLastRows(less, tables, db, tbl, partition, columns, limit, header, answer, body);
    QueryCondition(file, reqs, k);
    OneTailQuery(file, reqs, k, j);
    Tsv.ReversalKeepsLength(body);
    var v, buf := ViewAfter(file, reqs[..j]), reqs[k].materialized.value;
    TailReadsTheBuffer(file, v, buf, PSEUDO_EOF - |buf|, sizes);
    assert buf[0..] == buf;
  }
}
