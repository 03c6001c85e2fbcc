/** The array-filling splitter that the server's command executor and the C++
    client both carry (`Lexer::lex` and its twin `Utils::lexer`). */
module Lexer {
  import opened Bytes

  function Overlay(fields: seq<Bytes>, slot0: bool, before: seq<Bytes>): (after: seq<Bytes>)
    ensures |after| == |before|
  {
    seq(|before|, j requires 0 <= j < |before| =>
      if j < |fields| && (j > 0 || slot0) then fields[j] else before[j])
  }

  /** The array contents the splitter leaves behind: the fields, then the old
      slots. Slot 0 is only written once a non-separator character has been seen
      before the first separator. */
  function Lexed(str: Bytes, sep: char, before: seq<Bytes>): (after: seq<Bytes>)
    ensures |after| == |before|
  {
    Overlay(Split(str, sep), str != [] && str[0] != sep, before)
  }

  /** A prefix never has more fields than the whole. */
  lemma {:induction false} SplitPrefix(s: Bytes, n: nat, sep: char)
    requires n <= |s|
    ensures |Split(s[..n], sep)| <= |Split(s, sep)|
    decreases |s|
  {
    if n == |s| {
      assert s[..n] == s;
    } else {
      SplitPrefix(s[..|s| - 1], n, sep);
      assert s[..|s| - 1][..n] == s[..n];
    }
  }

  lemma OverlayNext(seen: seq<Bytes>, next: seq<Bytes>, slot0: bool, slot0': bool, before: seq<Bytes>)
    requires 0 < |seen| <= |next| <= |seen| + 1 && |next| <= |before|
    requires next[..|seen| - 1] == seen[..|seen| - 1]
    requires |next| > |seen| ==> next[|seen| - 1] == seen[|seen| - 1] && slot0 == slot0'
    requires |next| == |seen| > 1 ==> slot0 == slot0'
    requires |next| == |seen| == 1 ==> slot0'
    ensures Overlay(next, slot0', before) == Overlay(seen, slot0, before)[|next| - 1 := next[|next| - 1]]
  {
    forall j | 0 <= j < |next| - 1
      ensures next[j] == seen[j]
    {
      if j < |seen| - 1 {
        assert next[j] == next[..|seen| - 1][j];
      }
    }
  }

  /** One character changes exactly one slot. */
  lemma LexStep(str: Bytes, n: nat, sep: char, before: seq<Bytes>)
    requires n < |str| && |Split(str, sep)| <= |before|
    ensures var next := Split(str[..n + 1], sep);
      var i := |next| - 1;
      && i < |before|
      && Lexed(str[..n + 1], sep, before) == Lexed(str[..n], sep, before)[i := next[i]]
  {
    var seen, next := Split(str[..n], sep), Split(str[..n + 1], sep);
    SplitNext(str, n, sep);
    SplitPrefix(str, n + 1, sep);
    assert n > 0 ==> str[..n][0] == str[0];
    assert str[..n + 1][0] == str[0];
    SplitHead(str[..n + 1], sep);
    hide Split, Overlay, Join;
    OverlayNext(seen, next, n > 0 && str[0] != sep, str[0] != sep, before);
  }

  lemma LexStart(str: Bytes, sep: char, before: seq<Bytes>)
    ensures Split(str[..0], sep) == [[]] && Lexed(str[..0], sep, before) == before
  {
  }

  method Lex(str: Bytes, arg: array<Bytes>, sep: char)
    requires str != [] ==> |Split(str, sep)| <= arg.Length
    modifies arg
    ensures arg[..] == Lexed(str, sep, old(arg[..]))
  {
    hide Split, Lexed;
    var word: Bytes := [];
    var i := 0;
    ghost var before := arg[..];
    LexStart(str, sep, before);
    for n := 0 to |str|
      invariant i == |Split(str[..n], sep)| - 1
      invariant word == Split(str[..n], sep)[i]
      invariant arg[..] == Lexed(str[..n], sep, before)
    {
      var x := str[n];
      SplitNext(str, n, sep);
      LexStep(str, n, sep, before);
      ghost var after := arg[..];
      if x == sep {
        i := i + 1;
        arg[i] := word;
        word := [];
      } else {
        word := word + [x];
      }
      arg[i] := word;
      assert arg[..] == after[i := word];
    }
    assert str[..|str|] == str;
  }

  /** Text that is empty or starts with the separator has an empty first field. */
  lemma LeadingSeparator(str: Bytes, sep: char)
    requires str == [] || str[0] == sep
    ensures Split(str, sep)[0] == []
  {
    if str != [] {
      SplitConcat([], str[1..], sep);
      assert [] + [sep] + str[1..] == str;
    }
  }

  /** On a freshly constructed array of empty strings the result is the fields,
      then untouched empty slots; joining the fields restores the text. */
  lemma LexedFresh(str: Bytes, sep: char, size: nat)
    requires |Split(str, sep)| <= size
    ensures Lexed(str, sep, Pad([], size)) == Pad(Split(str, sep), size)
    ensures Join(Lexed(str, sep, Pad([], size))[..|Split(str, sep)|], sep) == str
  {
    JoinSplit(str, sep);
    if str == [] || str[0] == sep { LeadingSeparator(str, sep); }
    hide Split, Join;
    var fields, after := Split(str, sep), Lexed(str, sep, Pad([], size));
    assert after == Pad(fields, size);
    assert after[..|fields|] == fields;
  }

  /** On a reused array slot 0 holds field 0 exactly when it was already empty or
      the text starts with a character other than the separator. */
  lemma LexedReused(str: Bytes, sep: char, before: seq<Bytes>)
    requires before != [] && |Split(str, sep)| <= |before|
    ensures Lexed(str, sep, before)[..|Split(str, sep)|] == Split(str, sep)
       <==> before[0] == [] || (str != [] && str[0] != sep)
  {
    var fields, after := Split(str, sep), Lexed(str, sep, before);
    if str == [] || str[0] == sep {
      LeadingSeparator(str, sep);
      assert after[..|fields|][0] == before[0];
    }
  }
}
