/** Splitting a sequence at a separator, and joining pieces with one. */
module Pieces {

  lemma Associate<T>(a: seq<T>, b: seq<T>, c: seq<T>)
    ensures (a + b) + c == a + (b + c)
  {
  }

  function Split<T(==)>(sep: T, s: seq<T>): (pieces: seq<seq<T>>)
    ensures |pieces| >= 1
  {
    if s == [] then [[]]
    else
      var rest := Split(sep, s[1..]);
      if s[0] == sep then [[]] + rest else [[s[0]] + rest[0]] + rest[1..]
  }

  function Join<T>(sep: seq<T>, pieces: seq<seq<T>>): seq<T> {
    if |pieces| == 0 then []
    else if |pieces| == 1 then pieces[0]
    else pieces[0] + sep + Join(sep, pieces[1..])
  }

  function Reverse<T>(pieces: seq<T>): (r: seq<T>)
    ensures |r| == |pieces|
  {
    if pieces == [] then [] else Reverse(pieces[1..]) + [pieces[0]]
  }

  ghost predicate Free<T>(sep: T, pieces: seq<seq<T>>) {
    forall i :: 0 <= i < |pieces| ==> sep !in pieces[i]
  }

  lemma {:induction false} JoinSplit<T>(sep: T, s: seq<T>)
    ensures Join([sep], Split(sep, s)) == s
    ensures Free(sep, Split(sep, s))
  {
    if s != [] {
      JoinSplit(sep, s[1..]);
      var rest := Split(sep, s[1..]);
      if s[0] == sep {
        assert Split(sep, s)[1..] == rest;
      } else {
        assert Split(sep, s)[1..] == rest[1..];
        if |rest| > 1 {
          assert Join([sep], rest) == rest[0] + [sep] + Join([sep], rest[1..]);
          assert Join([sep], Split(sep, s)) == [s[0]] + Join([sep], rest);
        }
      }
    }
  }

  lemma {:induction false} LastPiece<T>(sep: T, s: seq<T>)
    ensures
      var last := Split(sep, s)[|Split(sep, s)| - 1];
      last == [] <==> s == [] || s[|s| - 1] == sep
  {
    if s != [] {
      LastPiece(sep, s[1..]);
    }
  }

  lemma {:induction false} SplitJoin<T>(sep: T, pieces: seq<seq<T>>)
    requires |pieces| >= 1 && Free(sep, pieces)
    ensures Split(sep, Join([sep], pieces)) == pieces
    decreases |pieces|, |pieces[0]|
  {
    var head, tail := pieces[0], pieces[1..];
    var s := Join([sep], pieces);
    if head != [] {
      var shorter := [head[1..]] + tail;
      assert shorter[1..] == tail;
      assert Join([sep], shorter) == s[1..];
      SplitJoin(sep, shorter);
      assert head == [head[0]] + head[1..];
      assert s[0] == head[0] != sep;
    } else if tail != [] {
      assert s[0] == sep && s[1..] == Join([sep], tail);
      SplitJoin(sep, tail);
    }
  }

  lemma {:induction false} JoinSnoc<T>(sep: seq<T>, pieces: seq<seq<T>>, last: seq<T>)
    requires pieces != []
    ensures Join(sep, pieces + [last]) == Join(sep, pieces) + sep + last
  {
    if |pieces| > 1 {
      JoinSnoc(sep, pieces[1..], last);
      assert (pieces + [last])[1..] == pieces[1..] + [last];
    } else {
      assert (pieces + [last])[1..] == [last];
    }
  }

  lemma {:induction false} ReverseSnoc<T>(pieces: seq<T>, last: T)
    ensures Reverse(pieces + [last]) == [last] + Reverse(pieces)
  {
    if pieces != [] {
      ReverseSnoc(pieces[1..], last);
      assert (pieces + [last])[1..] == pieces[1..] + [last];
    }
  }

  lemma {:induction false} ReverseTwice<T>(pieces: seq<T>)
    ensures Reverse(Reverse(pieces)) == pieces
  {
    if pieces != [] {
      ReverseSnoc(Reverse(pieces[1..]), pieces[0]);
      ReverseTwice(pieces[1..]);
    }
  }

  lemma {:induction false} ReverseAt<T>(pieces: seq<T>, k: nat)
    requires k < |pieces|
    ensures Reverse(pieces)[k] == pieces[|pieces| - 1 - k]
  {
    if k < |pieces| - 1 {
      ReverseAt(pieces[1..], k);
    }
  }

  lemma ReverseFree<T>(sep: T, pieces: seq<seq<T>>)
    requires Free(sep, pieces)
    ensures Free(sep, Reverse(pieces))
  {
    forall k | 0 <= k < |pieces| ensures sep !in Reverse(pieces)[k] {
      ReverseAt(pieces, k);
    }
  }
}
