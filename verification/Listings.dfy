/**
  The metadata listings behind directories: parsing a listing body, and fetching
  it through the TTL cache from a server that changes as time passes.
 */
module Listings {
  import opened Common
  import opened Pieces
  import opened TtlCaches
  import opened Resolver

  // ------------------------------------------------------------- listing bodies

  function StripCr(line: string): string {
    if line != "" && line[|line| - 1] == '\r' then line[..|line| - 1] else line
  }

  function StripAll(lines: seq<string>): (r: seq<string>)
    ensures |r| == |lines|
    ensures forall i :: 0 <= i < |lines| ==> r[i] == StripCr(lines[i])
  {
    if lines == [] then [] else [StripCr(lines[0])] + StripAll(lines[1..])
  }

  /** The lines of a text: a line end is a newline with an optional carriage return before it. */
  function TextLines(text: string): seq<string> {
    var pieces := Split('\n', text);
    var last := pieces[|pieces| - 1];
    StripAll(pieces[..|pieces| - 1]) + (if last == "" then [] else [last])
  }

  /** The lines a fetch keeps; a partition fetch also drops the pseudo-partition "all". */
  function Keep(lines: seq<string>, dropAll: bool): (kept: seq<string>)
    ensures "" !in kept && (dropAll ==> "all" !in kept)
    ensures forall s :: s in kept <==> s in lines && s != "" && !(dropAll && s == "all")
  {
    if lines == [] then []
    else (if lines[0] == "" || (dropAll && lines[0] == "all") then [] else [lines[0]]) + Keep(lines[1..], dropAll)
  }

  function ParseListing(text: string, dropAll: bool): seq<string> {
    Keep(TextLines(text), dropAll)
  }

  lemma KeepCons(line: string, rest: seq<string>, dropAll: bool)
    ensures Keep([line] + rest, dropAll)
         == (if line == "" || (dropAll && line == "all") then [] else [line]) + Keep(rest, dropAll)
  {
    assert ([line] + rest)[1..] == rest;
  }

  /** A fetch goes through the lines one by one and keeps their order. */
  lemma {:induction false} KeepInOrder(lines: seq<string>, line: string, more: seq<string>, dropAll: bool)
    ensures Keep(lines + more, dropAll) == Keep(lines, dropAll) + Keep(more, dropAll)
    ensures Keep([line], dropAll) == if line == "" || (dropAll && line == "all") then [] else [line]
  {
    hide Keep;
    KeepNothing(dropAll);
    KeepCons(line, [], dropAll);
    assert [line] + [] == [line];
    if lines == [] {
      assert lines + more == more;
    } else {
      var first := if lines[0] == "" || (dropAll && lines[0] == "all") then [] else [lines[0]];
      KeepInOrder(lines[1..], line, more, dropAll);
      KeepCons(lines[0], lines[1..], dropAll);
      KeepCons(lines[0], lines[1..] + more, dropAll);
      assert [lines[0]] + lines[1..] == lines;
      assert [lines[0]] + (lines[1..] + more) == lines + more;
      Associate(first, Keep(lines[1..], dropAll), Keep(more, dropAll));
    }
  }

  lemma KeepNothing(dropAll: bool)
    ensures Keep([], dropAll) == []
  {
  }

  /** Lines, each ended by a newline with or without a carriage return before it, and what follows the last. */
  function LinesText(lines: seq<string>, crs: seq<bool>, last: string): string
    requires |crs| == |lines|
  {
    if lines == [] then last
    else lines[0] + (if crs[0] then "\r" else "") + "\n" + LinesText(lines[1..], crs[1..], last)
  }

  lemma {:induction false} SplitLine(line: string, rest: string)
    requires '\n' !in line
    ensures Split('\n', line + "\n" + rest) == [line] + Split('\n', rest)
  {
    var text := line + "\n" + rest;
    if line == "" {
      assert text[0] == '\n' && text[1..] == rest;
    } else {
      SplitLine(line[1..], rest);
      assert text[1..] == line[1..] + "\n" + rest;
      assert [line[0]] + line[1..] == line;
    }
  }

  lemma {:induction false} SplitOne(line: string)
    requires '\n' !in line
    ensures Split('\n', line) == [line]
  {
    if line != "" {
      SplitOne(line[1..]);
      assert [line[0]] + line[1..] == line;
    }
  }

  /** One more line in front of a text. */
  lemma FirstLine(line: string, cr: bool, rest: string)
    requires '\n' !in line && (cr || line == "" || line[|line| - 1] != '\r')
    ensures TextLines(line + (if cr then "\r" else "") + "\n" + rest) == [line] + TextLines(rest)
  {
    hide Split, StripAll;
    var first := line + (if cr then "\r" else "");
    SplitLine(first, rest);
    StripFirst(first, Split('\n', rest));
    CrIsStripped(line, cr);
  }

  lemma CrIsStripped(line: string, cr: bool)
    requires cr || line == "" || line[|line| - 1] != '\r'
    ensures StripCr(line + (if cr then "\r" else "")) == line
  {
  }

  lemma StripFirst(first: string, pieces: seq<string>)
    requires pieces != []
    ensures
      var all := [first] + pieces;
      && StripAll(all[..|all| - 1]) == [StripCr(first)] + StripAll(pieces[..|pieces| - 1])
      && all[|all| - 1] == pieces[|pieces| - 1]
  {
    var all := [first] + pieces;
    assert all[..|all| - 1] == [first] + pieces[..|pieces| - 1];
  }

  /** The lines of a text are the same whichever way they end; an unfinished last line counts if it is not empty. */
  lemma {:induction false} LinesReadBack(lines: seq<string>, crs: seq<bool>, last: string)
    requires |crs| == |lines| && '\n' !in last
    requires forall i :: 0 <= i < |lines| ==>
               '\n' !in lines[i] && (crs[i] || lines[i] == "" || lines[i][|lines[i]| - 1] != '\r')
    ensures TextLines(LinesText(lines, crs, last)) == lines + (if last == "" then [] else [last])
  {
    if lines == [] {
      SplitOne(last);
    } else {
      hide TextLines;
      LinesReadBack(lines[1..], crs[1..], last);
      FirstLine(lines[0], crs[0], LinesText(lines[1..], crs[1..], last));
      assert [lines[0]] + lines[1..] == lines;
    }
  }

  // ------------------------------------------------ what the server prints

  /** The letter after the backslash for a character TabSeparated escapes, or the character itself. */
  function EscapeLetter(c: char): char {
    if c == '\U{8}' then 'b' else if c == '\U{C}' then 'f' else if c == '\n' then 'n' else if c == '\r' then 'r'
    else if c == '\t' then 't' else if c == '\0' then '0' else c
  }

  predicate IsEscaped(c: char) {
    EscapeLetter(c) != c || c == '\'' || c == '\\'
  }

  /** A value as TabSeparated prints it. */
  function EscapeTsv(s: string): string {
    if s == "" then ""
    else (if IsEscaped(s[0]) then ['\\', EscapeLetter(s[0])] else [s[0]]) + EscapeTsv(s[1..])
  }

  predicate NeedsNoEscape(s: string) {
    forall i :: 0 <= i < |s| ==> !IsEscaped(s[i])
  }

  function EscapeAll(names: seq<string>): (r: seq<string>)
    ensures |r| == |names|
    ensures forall i :: 0 <= i < |names| ==> r[i] == EscapeTsv(names[i])
  {
    if names == [] then [] else [EscapeTsv(names[0])] + EscapeAll(names[1..])
  }

  /** One escaped name a line, as the server prints a single-column result. */
  function PrintListing(names: seq<string>): string {
    if names == [] then "" else EscapeTsv(names[0]) + "\n" + PrintListing(names[1..])
  }

  lemma {:induction false} PrintIsJoin(names: seq<string>)
    ensures PrintListing(names) == Join("\n", EscapeAll(names) + [""])
  {
    if names != [] {
      PrintIsJoin(names[1..]);
      var lines := EscapeAll(names);
      assert (lines + [""])[1..] == EscapeAll(names[1..]) + [""];
    }
  }

  /** Escaping leaves no line end behind, lengthens exactly the names it changes, and marks them. */
  lemma {:induction false} Escaping(s: string)
    ensures '\n' !in EscapeTsv(s) && '\r' !in EscapeTsv(s)
    ensures |EscapeTsv(s)| >= |s|
    ensures NeedsNoEscape(s) ==> EscapeTsv(s) == s
    ensures !NeedsNoEscape(s) ==> |EscapeTsv(s)| > |s| && '\\' in EscapeTsv(s)
    ensures EscapeTsv(s) == "" <==> s == ""
    ensures EscapeTsv(s) == "all" <==> s == "all"
  {
    if s != "" {
      Escaping(s[1..]);
      assert s == [s[0]] + s[1..];
    }
  }

  /** What a fetch gets is the names as they were printed, escapes and all. */
  lemma {:induction false} ListingIsEscaped(names: seq<string>, dropAll: bool)
    ensures ParseListing(PrintListing(names), dropAll) == Keep(EscapeAll(names), dropAll)
  {
    PrintIsJoin(names);
    var lines := EscapeAll(names);
    forall i | 0 <= i < |lines| ensures '\n' !in lines[i] && StripCr(lines[i]) == lines[i] {
      Escaping(names[i]);
    }
    var pieces := lines + [""];
    SplitJoin('\n', pieces);
    assert ['\n'] == "\n";
    assert pieces[..|lines|] == lines;
    assert TextLines(PrintListing(names)) == StripAll(lines) == lines;
  }

  function TotalLength(names: seq<string>): nat {
    if names == [] then 0 else |names[0]| + TotalLength(names[1..])
  }

  lemma {:induction false} KeepEscaped(names: seq<string>, dropAll: bool)
    ensures (forall i :: 0 <= i < |names| ==> NeedsNoEscape(names[i])) ==>
              Keep(EscapeAll(names), dropAll) == Keep(names, dropAll)
    ensures TotalLength(Keep(EscapeAll(names), dropAll)) >= TotalLength(Keep(names, dropAll))
    ensures (exists i :: 0 <= i < |names| && !NeedsNoEscape(names[i])) ==>
              TotalLength(Keep(EscapeAll(names), dropAll)) > TotalLength(Keep(names, dropAll))
  {
    if names != [] {
      KeepEscaped(names[1..], dropAll);
      Escaping(names[0]);
      KeepFirst(names, dropAll);
      KeepFirst(EscapeAll(names), dropAll);
      assert EscapeAll(names)[1..] == EscapeAll(names[1..]);
      assert forall i :: 1 <= i < |names| ==> names[i] == names[1..][i - 1];
      if exists i :: 0 <= i < |names| && !NeedsNoEscape(names[i]) {
        var i :| 0 <= i < |names| && !NeedsNoEscape(names[i]);
        if i == 0 {
          assert names[0] != "" && names[0] != "all";
        } else {
          assert !NeedsNoEscape(names[1..][i - 1]);
        }
      }
    }
  }

  lemma KeepFirst(names: seq<string>, dropAll: bool)
    requires names != []
    ensures TotalLength(Keep(names, dropAll))
         == (if names[0] == "" || (dropAll && names[0] == "all") then 0 else |names[0]|)
            + TotalLength(Keep(names[1..], dropAll))
  {
    if names[0] == "" || (dropAll && names[0] == "all") {
      assert Keep(names, dropAll) == Keep(names[1..], dropAll);
    } else {
      assert Keep(names, dropAll)[1..] == Keep(names[1..], dropAll);
    }
  }

  /**
    A fetch gets back the server's names, without the ones it drops, if and only
    if none of them contains a character that is escaped on the way.
   */
  lemma {:induction false} ListingRoundTrip(names: seq<string>, dropAll: bool)
    ensures ParseListing(PrintListing(names), dropAll) == Keep(names, dropAll)
       <==> forall i :: 0 <= i < |names| ==> NeedsNoEscape(names[i])
  {
    ListingIsEscaped(names, dropAll);
    KeepEscaped(names, dropAll);
  }

  /** A name that comes back changed is no name the resolver takes, so its entry cannot be looked up. */
  lemma {:induction false} EscapedNamesDoNotResolve(name: string)
    requires !NeedsNoEscape(name)
    ensures !ValidDbOrTable(EscapeTsv(name)) && !ValidIdentifier(EscapeTsv(name))
  {
    Escaping(name);
  }

  /** A name of one backslash, say, is listed as two. */
  lemma BackslashIsDoubled(dropAll: bool)
    ensures ParseListing(PrintListing(["\\"]), dropAll) == ["\\\\"]
  {
    ListingIsEscaped(["\\"], dropAll);
    var escaped := EscapeTsv("\\");
    assert escaped == "\\\\";
    assert EscapeAll(["\\"]) == [escaped];
    Escaping("\\");
    assert [escaped][1..] == [];
    assert Keep([escaped], dropAll) == [escaped] + Keep([], dropAll);
  }

  // --------------------------------------------------------------------- fetching

  /** When a fetch asked the cache, and when its query began, was answered from the server's state, and was stored. */
  datatype Timing = Timing(asked: nat, started: nat, sampled: nat, stored: nat) {
    predicate InOrder() {
      asked <= started <= sampled <= stored
    }
  }

  datatype QueryRecord<K> = QueryRecord(key: K, timing: Timing)

  /** The latest insertion is one of the log, and later ones are for other keys. */
  lemma {:induction false} LatestIndex<K, V>(log: seq<Insertion<K, V>>, key: K) returns (i: nat)
    requires Latest(log, key).Some?
    ensures i < |log| && log[i].key == key && log[i].entry == Latest(log, key).value
    ensures forall j :: i < j < |log| ==> log[j].key != key
  {
    if log[|log| - 1].key == key {
      i := |log| - 1;
    } else {
      i := LatestIndex(log[..|log| - 1], key);
    }
  }

  lemma {:induction false} LatestNone<K, V>(log: seq<Insertion<K, V>>, key: K)
    requires Latest(log, key).None?
    ensures forall j :: 0 <= j < |log| ==> log[j].key != key
  {
    if log != [] {
      LatestNone(log[..|log| - 1], key);
    }
  }

  /** One of the three cached listings: of databases, of a database's tables, of a table's partitions. */
  class CachedListing<K(==, !new)> {
    const dropAll: bool
    const cache: TtlCache<K, seq<string>>
    /** The body the server would answer at each instant. */
    ghost const server: (K, nat) -> string
    /** The successful queries, one for each insertion into the cache. */
    ghost var queries: seq<QueryRecord<K>>

    ghost predicate Valid()
      reads this, cache
    {
      && cache.Valid()
      && |queries| == |cache.log|
      && (forall i :: 0 <= i < |queries| ==> Matches(queries[i], cache.log[i]))
      && (forall i, j :: 0 <= i < j < |queries| && queries[i].key == queries[j].key ==>
            queries[i].timing.stored + cache.ttl < queries[j].timing.started)
    }

    /** What a query stored is the server's listing at the instant it was answered. */
    ghost predicate Matches(q: QueryRecord<K>, e: Insertion<K, seq<string>>) {
      && q.timing.InOrder()
      && q.key == e.key
      && e.entry == Entry(ParseListing(server(q.key, q.timing.sampled), dropAll), q.timing.stored)
    }

    constructor (ttl: nat, dropAll: bool, ghost server: (K, nat) -> string)
      ensures Valid() && fresh(cache) && queries == [] && cache.ttl == ttl
      ensures this.dropAll == dropAll && this.server == server
    {
      this.dropAll := dropAll;
      this.server := server;
      cache := new TtlCache(ttl);
      queries := [];
    }

    /**
      The list for `key`, from the cache or by a query that takes its course as
      `timing` says and ends in `answer`. A list returned is the server's at some
      instant no older than the TTL plus the duration of the query that fetched
      it, and a successful query starts more than one TTL after the previous
      insertion for its key.
     */
    method Fetch(key: K, timing: Timing, answer: Result<string, FsError>) returns (list: Result<seq<string>, FsError>)
      requires Valid() && timing.InOrder() && cache.clock <= timing.asked
      requires answer.Ok? ==> answer.value == server(key, timing.sampled)
      modifies this, cache
      ensures Valid() && cache.clock <= timing.stored
      ensures old(queries) <= queries
      ensures
        if Fresh(old(cache.log), key, cache.ttl, timing.asked).Some? then
          && list == Ok(Fresh(old(cache.log), key, cache.ttl, timing.asked).value)
          && queries == old(queries) && cache.log == old(cache.log)
        else if answer.Err? then
          list == Err(answer.error) && queries == old(queries) && cache.log == old(cache.log)
        else
          && list == Ok(ParseListing(answer.value, dropAll))
          && queries == old(queries) + [QueryRecord(key, timing)]
          && cache.log == old(cache.log) + [Insertion(key, Entry(list.value, timing.stored))]
      ensures list.Ok? ==>
                exists i ::
                  && 0 <= i < |queries| && queries[i].key == key
                  && list.value == ParseListing(server(key, queries[i].timing.sampled), dropAll)
                  && (var q := queries[i].timing;
                      var returned := if queries == old(queries) then timing.asked else timing.stored;
                      returned - q.sampled <= cache.ttl + (q.stored - q.started))
    {
      var found := cache.Get(key, timing.asked);
      if found.Some? {
        ghost var i := LatestIndex(cache.log, key);
        assert Matches(queries[i], cache.log[i]);
        return Ok(found.value);
      }
      if answer.Err? {
        return Err(answer.error);
      }
      SpacedFromAll(key, timing.asked);
      var v := ParseListing(answer.value, dropAll);
      cache.Insert(key, v, timing.stored);
      queries := queries + [QueryRecord(key, timing)];
      assert queries[|queries| - 1] == QueryRecord(key, timing);
      list := Ok(v);
    }

    /** A query stored before the latest one for its key was stored earlier still. */
    lemma SpacedFromOne(key: K, asked: nat, k: nat, i: nat)
      requires Valid() && k < |queries| && i < |queries| && queries[k].key == queries[i].key == key
      requires queries[k].timing.stored + cache.ttl < asked
      requires forall j :: k < j < |queries| ==> cache.log[j].key != key
      ensures queries[i].timing.stored + cache.ttl < asked
    {
      assert Matches(queries[i], cache.log[i]) && Matches(queries[k], cache.log[k]);
    }

    /** On a miss every earlier query for the key was stored more than one TTL ago. */
    lemma SpacedFromAll(key: K, asked: nat)
      requires Valid() && Fresh(cache.log, key, cache.ttl, asked).None?
      ensures forall i :: 0 <= i < |queries| && queries[i].key == key ==> queries[i].timing.stored + cache.ttl < asked
    {
      if Latest(cache.log, key).None? {
        LatestNone(cache.log, key);
      } else {
        var k := LatestIndex(cache.log, key);
        assert Matches(queries[k], cache.log[k]);
        assert queries[k].timing.stored + cache.ttl < asked;
        forall i | 0 <= i < |queries| && queries[i].key == key
          ensures queries[i].timing.stored + cache.ttl < asked
        {
          SpacedFromOne(key, asked, k, i);
        }
      }
    }
  }
}
