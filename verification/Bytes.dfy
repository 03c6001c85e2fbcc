/** Byte strings as the server and its clients handle them, and the one
    specification of "fields between separators" that every parser in the
    repository is proved against. A byte is modelled by the char of its code. */
module Bytes {
  type Bytes = string

  // The field separator of every frame, and the C string terminator.
  const SEP: char := '\U{1}'
  const NUL: char := '\U{0}'

  datatype Option<+T> = None | Some(value: T)

  /** What a C function sees of s: everything before the first NUL. */
  function CStr(s: Bytes): (r: Bytes)
    ensures r <= s
    ensures NUL !in r
    ensures r != s ==> s[|r|] == NUL
    ensures NUL !in s <==> r == s
  {
    if s == [] || s[0] == NUL then [] else [s[0]] + CStr(s[1..])
  }

  /** Cutting at the first NUL commutes with prepending NUL-free text. */
  lemma {:induction false} CStrConcat(a: Bytes, b: Bytes)
    requires NUL !in a
    ensures CStr(a + b) == a + CStr(b)
  {
    if a == [] {
      assert a + b == b;
    } else {
      assert (a + b)[1..] == a[1..] + b;
      CStrConcat(a[1..], b);
    }
  }

  function Join(fields: seq<Bytes>, sep: char): Bytes {
    if fields == [] then [] else if |fields| == 1 then fields[0]
    else Join(fields[..|fields| - 1], sep) + [sep] + fields[|fields| - 1]
  }

  /** Reading one more character closes the last field or extends it. */
  function Extend(fields: seq<Bytes>, x: char, sep: char): seq<Bytes>
    requires fields != []
  {
    if x == sep then fields + [[]]
    else fields[..|fields| - 1] + [fields[|fields| - 1] + [x]]
  }

  /** The fields of s, read from left to right. */
  function Split(s: Bytes, sep: char): (fields: seq<Bytes>)
    ensures fields != []
  {
    if s == [] then [[]] else Extend(Split(s[..|s| - 1], sep), s[|s| - 1], sep)
  }

  ghost predicate Free(fields: seq<Bytes>, sep: char) {
    forall i :: 0 <= i < |fields| ==> sep !in fields[i]
  }

  lemma JoinExtend(fields: seq<Bytes>, x: char, sep: char)
    requires fields != []
    ensures Join(Extend(fields, x, sep), sep) == Join(fields, sep) + [x]
    ensures Free(fields, sep) ==> Free(Extend(fields, x, sep), sep)
  {
    var r := Extend(fields, x, sep);
    assert r[..|r| - 1] == if x == sep then fields else fields[..|fields| - 1];
  }

  /** Fields contain no separator, and joining them restores the text. */
  lemma {:induction false} JoinSplit(s: Bytes, sep: char)
    ensures Free(Split(s, sep), sep)
    ensures Join(Split(s, sep), sep) == s
  {
    if s != [] {
      var before, x := Split(s[..|s| - 1], sep), s[|s| - 1];
      JoinSplit(s[..|s| - 1], sep);
      JoinExtend(before, x, sep);
      assert s == s[..|s| - 1] + [x];
    }
  }

  lemma SplitNext(s: Bytes, n: nat, sep: char)
    requires n < |s|
    ensures Split(s[..n + 1], sep) == Extend(Split(s[..n], sep), s[n], sep)
  {
    assert s[..n + 1][..n] == s[..n];
  }

  lemma SplitSnoc(fields: seq<Bytes>, x: char, sep: char)
    requires fields != [] && Split(Join(fields, sep), sep) == fields
    ensures Split(Join(Extend(fields, x, sep), sep), sep) == Extend(fields, x, sep)
  {
    JoinExtend(fields, x, sep);
    var s := Join(fields, sep);
    assert (s + [x])[..|s|] == s;
  }

  lemma SplitNothing(sep: char)
    ensures Join([[]], sep) == [] && Split([], sep) == [[]]
  {}

  /** Splitting undoes joining: with JoinSplit, Split(s) is the only sequence of
      separator-free fields whose join is s. */
  lemma {:induction false} SplitJoin(fields: seq<Bytes>, sep: char)
    requires fields != [] && Free(fields, sep)
    ensures Split(Join(fields, sep), sep) == fields
    decreases |fields|, |fields[|fields| - 1]|
  {
    hide Split, Join;
    var n := |fields| - 1;
    var last := fields[n];
    if last != [] {
      var m := |last| - 1;
      var shorter := fields[..n] + [last[..m]];
      assert last == last[..m] + [last[m]];
      assert forall i :: 0 <= i < n ==> shorter[i] == fields[i];
      SplitJoin(shorter, sep);
      assert fields == Extend(shorter, last[m], sep);
      SplitSnoc(shorter, last[m], sep);
    } else if n == 0 {
      assert fields == [[]];
      SplitNothing(sep);
    } else {
      SplitJoin(fields[..n], sep);
      assert fields == Extend(fields[..n], sep, sep);
      SplitSnoc(fields[..n], sep, sep);
    }
  }

  lemma {:induction false} JoinConcat(a: seq<Bytes>, b: seq<Bytes>, sep: char)
    requires a != [] && b != []
    ensures Join(a + b, sep) == Join(a, sep) + [sep] + Join(b, sep)
    decreases |b|
  {
    var n := |b| - 1;
    assert (a + b)[..|a + b| - 1] == a + b[..n];
    if n == 0 {
      assert a + b[..n] == a;
    } else {
      JoinConcat(a, b[..n], sep);
    }
  }

  /** A separator splits the fields of a string in two independent halves. */
  lemma SplitConcat(a: Bytes, b: Bytes, sep: char)
    ensures Split(a + [sep] + b, sep) == Split(a, sep) + Split(b, sep)
  {
    JoinSplit(a, sep);
    JoinSplit(b, sep);
    JoinConcat(Split(a, sep), Split(b, sep), sep);
    SplitJoin(Split(a, sep) + Split(b, sep), sep);
  }

  lemma SplitWhole(a: Bytes, sep: char)
    requires sep !in a
    ensures Split(a, sep) == [a]
  {
    SplitJoin([a], sep);
  }

  /** First field and everything after the first separator. */
  lemma SplitFirst(a: Bytes, b: Bytes, sep: char)
    requires sep !in a
    ensures Split(a + [sep] + b, sep) == [a] + Split(b, sep)
    ensures Join(Split(a + [sep] + b, sep)[1..], sep) == b
  {
    SplitConcat(a, b, sep);
    SplitWhole(a, sep);
    JoinSplit(b, sep);
    assert Split(a + [sep] + b, sep)[1..] == Split(b, sep);
  }

  lemma SplitHead(s: Bytes, sep: char)
    ensures Split(s, sep)[0] <= s
    ensures sep in s <==> |Split(s, sep)| > 1
    ensures |Split(s, sep)| > 1 ==>
      s == Split(s, sep)[0] + [sep] + Join(Split(s, sep)[1..], sep)
  {
    var f := Split(s, sep);
    JoinSplit(s, sep);
    if |f| > 1 {
      assert f == f[..1] + f[1..];
      JoinConcat(f[..1], f[1..], sep);
    } else {
      assert s == f[0];
    }
  }

  /** Fields followed by empty strings: a fixed-size array after lexing. */
  function Pad(fields: seq<Bytes>, size: nat): (r: seq<Bytes>)
    ensures |r| == if |fields| < size then size else |fields|
    ensures fields <= r
    ensures forall i :: |fields| <= i < |r| ==> r[i] == []
  {
    if |fields| < size then fields + seq(size - |fields|, _ => []) else fields
  }
}
