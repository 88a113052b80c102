/** The string operations the serial link and the widgets rely on:
    Python's `str.strip()`, `str.split()` with no argument, `str.join`,
    `str.replace` of one character, the peer's `trim()`, and the
    normalisation chain the listener applies to a reassembled frame. */
module Text {

  /** Python's whitespace, as used by `str.strip()` and `str.split()`
      without arguments: the characters for which `str.isspace()` holds. */
  predicate IsPySpace(c: char) {
    var n := c as int;
    (9 <= n <= 13) || (28 <= n <= 32) || n == 0x85 || n == 0xA0 || n == 0x1680
    || (0x2000 <= n <= 0x200A) || n == 0x2028 || n == 0x2029 || n == 0x202F
    || n == 0x205F || n == 0x3000
  }

  /** The whitespace the peer firmware's `trim()` removes: ASCII tab, line
      feed, vertical tab, form feed, carriage return and space. */
  predicate IsTrimSpace(c: char) {
    c == ' ' || (9 <= c as int <= 13)
  }

  predicate NoneIn(s: string, p: char -> bool) {
    forall i :: 0 <= i < |s| ==> !p(s[i])
  }

  /** `s` with every character satisfying `p` dropped and the others kept
      in order. */
  function Without(s: string, p: char -> bool): (r: string)
    ensures |r| <= |s|
    ensures NoneIn(r, p)
    ensures NoneIn(s, p) ==> r == s
  {
    if s == [] then []
    else
      assert s == [s[0]] + s[1..];
      (if p(s[0]) then [] else [s[0]]) + Without(s[1..], p)
  }

  /** Dropping characters works piece by piece. */
  lemma {:induction false} WithoutAppend(a: string, b: string, p: char -> bool)
    ensures Without(a + b, p) == Without(a, p) + Without(b, p)
  {
    if a == [] {
      assert a + b == b;
    } else {
      assert (a + b)[0] == a[0];
      assert (a + b)[1..] == a[1..] + b;
      WithoutAppend(a[1..], b, p);
    }
  }

  /** Dropping characters from a string made only of them leaves nothing. */
  lemma {:induction false} WithoutAll(s: string, p: char -> bool)
    requires forall k :: 0 <= k < |s| ==> p(s[k])
    ensures Without(s, p) == []
  {
    if s != [] {
      WithoutAll(s[1..], p);
    }
  }

  /** The pieces run together, as `"".join(parts)`. */
  function Concat(parts: seq<string>): string {
    if parts == [] then [] else Concat(parts[..|parts| - 1]) + parts[|parts| - 1]
  }

  /** Running pieces together, taken from the front. */
  lemma {:induction false} ConcatCons(x: string, rest: seq<string>)
    ensures Concat([x] + rest) == x + Concat(rest)
  {
    if rest != [] {
      var front := rest[..|rest| - 1];
      assert ([x] + rest)[..|rest|] == [x] + front;
      ConcatCons(x, front);
    }
  }

  /** The text of a line: everything up to and including the first line
      feed, or everything when no line feed has arrived (a read that ends
      on the port's timeout). */
  function FirstLine(s: string): (line: string)
    ensures |line| <= |s| && line == s[..|line|]
    ensures '\n' in s ==> line != [] && line[|line| - 1] == '\n' && '\n' !in line[..|line| - 1]
    ensures '\n' !in s ==> line == s
  {
    if s == [] then []
    else if s[0] == '\n' then [s[0]]
    else
      var rest := FirstLine(s[1..]);
      assert s == [s[0]] + s[1..];
      [s[0]] + rest
  }

  /** Number of leading characters of `s` that satisfy `p`. */
  function Lead(s: string, p: char -> bool): (n: nat)
    ensures n <= |s|
    ensures forall i :: 0 <= i < n ==> p(s[i])
    ensures n < |s| ==> !p(s[n])
  {
    if s == [] || !p(s[0]) then 0 else 1 + Lead(s[1..], p)
  }

  /** Number of trailing characters of `s` that satisfy `p`. */
  function Trail(s: string, p: char -> bool): (n: nat)
    ensures n <= |s|
    ensures forall i :: |s| - n <= i < |s| ==> p(s[i])
    ensures n < |s| ==> !p(s[|s| - 1 - n])
  {
    if s == [] || !p(s[|s| - 1]) then 0 else 1 + Trail(s[..|s| - 1], p)
  }

  /** `s` with every leading and trailing character satisfying `p`
      removed. */
  function StripWith(s: string, p: char -> bool): (r: string)
    ensures r == [] || (!p(r[0]) && !p(r[|r| - 1]))
    ensures |r| <= |s|
    ensures r == [] <==> (forall k :: 0 <= k < |s| ==> p(s[k]))
  {
    var a := Lead(s, p);
    if a == |s| then
      []
    else
      var b := Trail(s, p);
      assert a < |s| - b;
      s[a..|s| - b]
  }

  /** What stripping removes: the result is the infix of `s` left between a
      prefix and a suffix made only of `p` characters. */
  lemma StripIsInfix(s: string, p: char -> bool) returns (i: nat, j: nat)
    ensures i <= j <= |s| && StripWith(s, p) == s[i..j]
    ensures forall k :: 0 <= k < i ==> p(s[k])
    ensures forall k :: j <= k < |s| ==> p(s[k])
  {
    i := Lead(s, p);
    if i == |s| {
      j := i;
    } else {
      j := |s| - Trail(s, p);
    }
  }

  /** Python's `str.strip()` with no argument. */
  function Strip(s: string): (r: string)
    ensures r == [] || (!IsPySpace(r[0]) && !IsPySpace(r[|r| - 1]))
    ensures r == [] <==> (forall k :: 0 <= k < |s| ==> IsPySpace(s[k]))
  {
    StripWith(s, IsPySpace)
  }

  /** The peer's `trim()`. */
  function Trim(s: string): (r: string)
    ensures r == [] || (!IsTrimSpace(r[0]) && !IsTrimSpace(r[|r| - 1]))
  {
    StripWith(s, IsTrimSpace)
  }

  /** Stripping a string that neither starts nor ends with whitespace
      leaves it as it is. */
  lemma StripUnchanged(s: string, p: char -> bool)
    requires s == [] || (!p(s[0]) && !p(s[|s| - 1]))
    ensures StripWith(s, p) == s
  {
    if s != [] {
      assert Lead(s, p) == 0;
      assert Trail(s, p) == 0;
      assert s[0..|s|] == s;
    }
  }

  /** Stripping removes whitespace only: the non-whitespace text is kept,
      in order. */
  lemma StripKeepsText(s: string)
    ensures Without(Strip(s), IsPySpace) == Without(s, IsPySpace)
  {
    StripWithKeepsText(s, IsPySpace);
  }

  lemma StripWithKeepsText(s: string, p: char -> bool)
    ensures Without(StripWith(s, p), p) == Without(s, p)
  {
    var i, j := StripIsInfix(s, p);
    var front, back := s[..i], s[j..];
    assert forall k :: 0 <= k < |front| ==> p(front[k]);
    assert forall k :: 0 <= k < |back| ==> p(back[k]) by {
      forall k | 0 <= k < |back|
        ensures p(back[k])
      {
        assert back[k] == s[j + k];
      }
    }
    assert s == front + s[i..j] + back;
    WithoutBetween(front, s[i..j], back, p);
  }

  /** Dropping `p` characters from a string whose ends are made only of
      them leaves what its middle leaves. */
  lemma WithoutBetween(front: string, middle: string, back: string, p: char -> bool)
    requires forall k :: 0 <= k < |front| ==> p(front[k])
    requires forall k :: 0 <= k < |back| ==> p(back[k])
    ensures Without(front + middle + back, p) == Without(middle, p)
  {
    WithoutAppend(front + middle, back, p);
    WithoutAppend(front, middle, p);
    WithoutAll(front, p);
    WithoutAll(back, p);
  }

  /** Stripping is idempotent. */
  lemma StripIdempotent(s: string)
    ensures Strip(Strip(s)) == Strip(s)
  {
    StripUnchanged(Strip(s), IsPySpace);
  }

  /** Python's `s.replace(c, "")`. */
  function RemoveChar(s: string, c: char): (r: string)
    ensures forall x :: x in r <==> x in s && x != c
    ensures multiset(r) == multiset(s)[c := 0]
    ensures c !in s ==> r == s
  {
    if s == [] then []
    else
      assert s == [s[0]] + s[1..];
      assert multiset(s) == multiset{s[0]} + multiset(s[1..]);
      if s[0] == c then RemoveChar(s[1..], c)
      else [s[0]] + RemoveChar(s[1..], c)
  }

  /** Removing a character works piece by piece, so the characters kept
      stay in their order. */
  lemma {:induction false} RemoveCharAppend(a: string, b: string, c: char)
    ensures RemoveChar(a + b, c) == RemoveChar(a, c) + RemoveChar(b, c)
  {
    if a == [] {
      assert a + b == b;
    } else {
      assert (a + b)[0] == a[0];
      assert (a + b)[1..] == a[1..] + b;
      RemoveCharAppend(a[1..], b, c);
    }
  }

  /** Removing a whitespace character keeps the non-whitespace text. */
  lemma {:induction false} RemoveCharKeepsText(s: string, c: char)
    requires IsPySpace(c)
    ensures Without(RemoveChar(s, c), IsPySpace) == Without(s, IsPySpace)
  {
    if s != [] {
      RemoveCharKeepsText(s[1..], c);
      if s[0] != c {
        var t := RemoveChar(s[1..], c);
        assert ([s[0]] + t)[1..] == t;
      }
    }
  }

  /** Python's `s.replace(a, b)` for single characters. */
  function ReplaceChar(s: string, a: char, b: char): (r: string)
    ensures |r| == |s|
    ensures forall i :: 0 <= i < |s| ==> r[i] == (if s[i] == a then b else s[i])
  {
    if s == [] then [] else [if s[0] == a then b else s[0]] + ReplaceChar(s[1..], a, b)
  }

  /** Replacing whitespace by whitespace keeps the non-whitespace text. */
  lemma {:induction false} ReplaceCharKeepsText(s: string, a: char, b: char)
    requires IsPySpace(a) && IsPySpace(b)
    ensures Without(ReplaceChar(s, a, b), IsPySpace) == Without(s, IsPySpace)
  {
    if s != [] {
      ReplaceCharKeepsText(s[1..], a, b);
      var t := ReplaceChar(s[1..], a, b);
      var r := ReplaceChar(s, a, b);
      assert r[1..] == t;
    }
  }

  /** A character `str.split()` keeps inside a word. */
  predicate IsWordChar(c: char) {
    !IsPySpace(c)
  }

  /** A word as `str.split()` yields it: non-empty, no whitespace. */
  predicate IsWord(w: string) {
    w != [] && NoneIn(w, IsPySpace)
  }

  /** Python's `str.split()` with no argument: the maximal runs of
      non-whitespace characters, in order. */
  function Words(s: string): (r: seq<string>)
    ensures forall i :: 0 <= i < |r| ==> IsWord(r[i])
    decreases |s|
  {
    if s == [] then []
    else if IsPySpace(s[0]) then Words(s[1..])
    else
      var n := Lead(s, IsWordChar);
      [s[..n]] + Words(s[n..])
  }

  /** The words hold exactly the non-whitespace text, in order: nothing
      but whitespace is dropped. */
  lemma {:induction false} WordsKeepText(s: string)
    ensures Concat(Words(s)) == Without(s, IsPySpace)
    decreases |s|
  {
    if s == [] {
    } else if IsPySpace(s[0]) {
      assert s == [s[0]] + s[1..];
      WordsKeepText(s[1..]);
    } else {
      var n := Lead(s, IsWordChar);
      var w, rest := s[..n], s[n..];
      assert Words(s) == [w] + Words(rest);
      assert Without(w, IsPySpace) == w by {
        assert forall i :: 0 <= i < |w| ==> IsWordChar(w[i]);
      }
      assert s == w + rest;
      WithoutAppend(w, rest, IsPySpace);
      WordsKeepText(rest);
      ConcatCons(w, Words(rest));
    }
  }

  /** How far a scan over the front of `a + t` gets: a scan that stops
      inside `a`, or at a character of `t` that stops it, stops where the
      scan over `a` alone does. */
  lemma {:induction false} LeadAppend(a: string, t: string, p: char -> bool)
    requires Lead(a, p) < |a| || (t != [] && !p(t[0]))
    ensures Lead(a + t, p) == Lead(a, p)
  {
    if a != [] && p(a[0]) {
      assert (a + t)[1..] == a[1..] + t;
      LeadAppend(a[1..], t, p);
    }
  }

  /** A run of non-whitespace forms one word. */
  lemma WordsOfWord(w: string)
    requires IsWord(w)
    ensures Words(w) == [w]
  {
    WordsOfWordThen(w, []);
    assert w + [] == w;
  }

  /** A whitespace character always separates words: the words of
      `a + [c] + b` are the words of `a` followed by those of `b`. With
      `WordsOfWord` and the text kept by `Words`, this fixes the split of
      every string. */
  lemma {:induction false} WordsSplitAtSpace(a: string, c: char, b: string)
    requires IsPySpace(c)
    ensures Words(a + [c] + b) == Words(a) + Words(b)
    decreases |a|, 1
  {
    if a == [] {
      SpaceStartSplit([], c, b);
    } else if IsPySpace(a[0]) {
      SplitAfterSpace(a, c, b);
    } else {
      SplitAfterWord(a, c, b);
    }
  }

  /** `WordsSplitAtSpace` when `a` starts with whitespace. */
  lemma {:induction false} SplitAfterSpace(a: string, c: char, b: string)
    requires IsPySpace(c) && a != [] && IsPySpace(a[0])
    ensures Words(a + [c] + b) == Words(a) + Words(b)
    decreases |a|, 0
  {
    SpaceStartSplit(a, c, b);
    WordsSplitAtSpace(a[1..], c, b);
  }

  /** `WordsSplitAtSpace` when `a` starts with a word. */
  lemma {:induction false} SplitAfterWord(a: string, c: char, b: string)
    requires IsPySpace(c) && a != [] && IsWordChar(a[0])
    ensures Words(a + [c] + b) == Words(a) + Words(b)
    decreases |a|, 0
  {
    var m := Lead(a, IsWordChar);
    WordStartSplit(a, c, b, m);
    if m < |a| {
      WordsSplitAtSpace(a[m..], c, b);
      Regroup([a[..m]], Words(a[m..]), Words(b));
    }
  }

  /** Concatenation of word lists regroups freely. */
  lemma Regroup(x: seq<string>, y: seq<string>, z: seq<string>)
    ensures x + (y + z) == (x + y) + z
  {
  }

  /** The scan skips a leading whitespace character. */
  lemma SpaceStartSplit(a: string, c: char, b: string)
    requires IsPySpace(c)
    ensures a == [] ==> Words(a + [c] + b) == Words(b)
    ensures a != [] && IsPySpace(a[0]) ==>
      Words(a + [c] + b) == Words(a[1..] + [c] + b) && Words(a) == Words(a[1..])
  {
    var s := a + [c] + b;
    if a == [] {
      assert s[1..] == b;
    } else {
      assert s[1..] == a[1..] + [c] + b;
    }
  }

  /** The first word of `a + [c] + b` when `a` starts with one: the word
      ends inside `a` or right at `c`. */
  lemma WordStartSplit(a: string, c: char, b: string, m: nat)
    requires IsPySpace(c) && a != [] && IsWordChar(a[0])
    requires m == Lead(a, IsWordChar)
    ensures 0 < m
    ensures Words(a + [c] + b) == [a[..m]] + Words(a[m..] + [c] + b)
    ensures Words(a) == [a[..m]] + Words(a[m..])
    ensures m == |a| ==> Words(a + [c] + b) == [a] + Words(b) && Words(a) == [a]
  {
    var s := a + [c] + b;
    LeadAppend(a, [c] + b, IsWordChar);
    assert s == a + ([c] + b);
    assert s[..m] == a[..m];
    assert s[m..] == a[m..] + [c] + b;
    if m == |a| {
      assert a[m..] + [c] + b == [c] + b;
      assert ([c] + b)[1..] == b;
      assert a[..m] == a;
    }
  }

  /** Python's `sep.join(parts)`. */
  function Join(sep: string, parts: seq<string>): (r: string)
    ensures parts == [] ==> r == []
    ensures |parts| == 1 ==> r == parts[0]
  {
    if parts == [] then []
    else if |parts| == 1 then parts[0]
    else parts[0] + sep + Join(sep, parts[1..])
  }

  /** Normal form of a listener frame: only non-whitespace characters and
      single spaces, no space at either end. */
  predicate IsNormal(r: string) {
    && (forall i :: 0 <= i < |r| ==> r[i] == ' ' || !IsPySpace(r[i]))
    && (r != [] ==> r[0] != ' ' && r[|r| - 1] != ' ')
    && (forall i :: 0 <= i < |r| - 1 ==> !(r[i] == ' ' && r[i + 1] == ' '))
  }

  /** The listener's clean-up of a reassembled frame: strip, drop every
      carriage return, turn every line feed into a space, then collapse
      whitespace runs to single spaces. */
  function Normalise(s: string): (r: string)
    ensures IsNormal(r)
    ensures '\r' !in r && '\n' !in r
  {
    var ws := Words(ReplaceChar(RemoveChar(Strip(s), '\r'), '\n', ' '));
    JoinWordsNormal(ws);
    NormalHasNoLineBreaks(Join(" ", ws));
    Join(" ", ws)
  }

  /** Joining words with single spaces gives a string in normal form. */
  lemma {:induction false} JoinWordsNormal(ws: seq<string>)
    requires forall i :: 0 <= i < |ws| ==> IsWord(ws[i])
    ensures IsNormal(Join(" ", ws))
    ensures ws != [] ==> Join(" ", ws) != []
  {
    if |ws| > 1 {
      var rest := Join(" ", ws[1..]);
      JoinWordsNormal(ws[1..]);
      var r := ws[0] + " " + rest;
      assert Join(" ", ws) == r;
      assert forall i :: 0 <= i < |ws[0]| ==> r[i] == ws[0][i];
      assert r[|ws[0]|] == ' ';
      assert forall i :: |ws[0]| < i < |r| ==> r[i] == rest[i - |ws[0]| - 1];
      assert rest[0] != ' ' && rest[|rest| - 1] != ' ';
    }
  }

  /** A normal frame contains neither a carriage return nor a line feed. */
  lemma NormalHasNoLineBreaks(r: string)
    requires IsNormal(r)
    ensures '\r' !in r && '\n' !in r
  {
  }

  /** The word scan of a word followed by a space-led tail. */
  lemma WordsOfWordThen(w: string, t: string)
    requires IsWord(w)
    requires t == [] || IsPySpace(t[0])
    ensures Words(w + t) == [w] + Words(t)
  {
    var s := w + t;
    var n := Lead(s, IsWordChar);
    assert forall i :: 0 <= i < |w| ==> s[i] == w[i];
    assert |w| < |s| ==> s[|w|] == t[0];
    assert n == |w|;
    assert s[..n] == w;
    assert s[n..] == t;
  }

  /** A leading space is skipped by the word scan. */
  lemma WordsOfSpaceThen(t: string)
    ensures Words(" " + t) == Words(t)
  {
    assert (" " + t)[1..] == t;
  }

  /** Joining two or more parts puts the separator after the first. */
  lemma JoinCons(sep: string, parts: seq<string>)
    requires |parts| >= 2
    ensures Join(sep, parts) == parts[0] + (sep + Join(sep, parts[1..]))
  {
  }

  /** Splitting words joined by single spaces gives the words back. */
  lemma {:induction false} WordsOfJoin(ws: seq<string>)
    requires forall i :: 0 <= i < |ws| ==> IsWord(ws[i])
    ensures Words(Join(" ", ws)) == ws
  {
    if ws == [] {
    } else if |ws| == 1 {
      WordsOfWordThen(ws[0], []);
      assert ws[0] + [] == ws[0];
    } else {
      var rest := Join(" ", ws[1..]);
      WordsOfJoin(ws[1..]);
      WordsOfSpaceThen(rest);
      WordsOfWordThen(ws[0], " " + rest);
      JoinCons(" ", ws);
      assert ws == [ws[0]] + ws[1..];
    }
  }

  /** Replacing a character that does not occur changes nothing. */
  lemma ReplaceAbsent(s: string, a: char, b: char)
    requires a !in s
    ensures ReplaceChar(s, a, b) == s
  {
    var r := ReplaceChar(s, a, b);
    assert forall i :: 0 <= i < |s| ==> r[i] == s[i];
  }

  /** Words joined by single spaces are their own normalisation. */
  lemma NormalFixed(ws: seq<string>)
    requires forall i :: 0 <= i < |ws| ==> IsWord(ws[i])
    ensures Normalise(Join(" ", ws)) == Join(" ", ws)
  {
    var r := Join(" ", ws);
    JoinWordsNormal(ws);
    assert Strip(r) == r by {
      if r != [] {
        assert !IsPySpace(r[0]) && !IsPySpace(r[|r| - 1]);
      }
      StripUnchanged(r, IsPySpace);
    }
    NormalHasNoLineBreaks(r);
    assert RemoveChar(r, '\r') == r;
    ReplaceAbsent(r, '\n', ' ');
    WordsOfJoin(ws);
  }

  /** Words joined by single spaces hold exactly the words' text. */
  lemma {:induction false} JoinKeepsText(ws: seq<string>)
    requires forall i :: 0 <= i < |ws| ==> IsWord(ws[i])
    ensures Without(Join(" ", ws), IsPySpace) == Concat(ws)
  {
    if ws == [] {
    } else if |ws| == 1 {
      assert ws == [] + [ws[0]];
    } else {
      JoinKeepsText(ws[1..]);
      JoinCons(" ", ws);
      SpaceThenKeepsText(ws[0], Join(" ", ws[1..]));
      ConcatCons(ws[0], ws[1..]);
      assert ws == [ws[0]] + ws[1..];
    }
  }

  /** The space between two joined words carries no text. */
  lemma SpaceThenKeepsText(w: string, rest: string)
    ensures Without(w + (" " + rest), IsPySpace) == Without(w, IsPySpace) + Without(rest, IsPySpace)
  {
    var t := " " + rest;
    assert t[0] == ' ' && t[1..] == rest;
    assert Without(t, IsPySpace) == Without(rest, IsPySpace);
    WithoutAppend(w, t, IsPySpace);
  }

  /** Normalisation changes whitespace only: the frame's non-whitespace
      text is delivered complete and in order (as "a \r\n b" gives
      "a b"). */
  lemma NormaliseKeepsText(s: string)
    ensures Without(Normalise(s), IsPySpace) == Without(s, IsPySpace)
  {
    var x := RemoveChar(Strip(s), '\r');
    var y := ReplaceChar(x, '\n', ' ');
    var ws := Words(y);
    JoinKeepsText(ws);
    WordsKeepText(y);
    ReplaceCharKeepsText(x, '\n', ' ');
    RemoveCharKeepsText(Strip(s), '\r');
    StripKeepsText(s);
  }

  /** Normalising twice is the same as normalising once. */
  lemma NormaliseIdempotent(s: string)
    ensures Normalise(Normalise(s)) == Normalise(s)
  {
    var ws := Words(ReplaceChar(RemoveChar(Strip(s), '\r'), '\n', ' '));
    NormalFixed(ws);
  }

  /** Normalisation keeps the words of the frame once carriage returns are
      dropped; a carriage return inside a word joins its two halves. */
  lemma NormaliseKeepsWords(s: string)
    ensures Words(Normalise(s)) == Words(ReplaceChar(RemoveChar(Strip(s), '\r'), '\n', ' '))
  {
    WordsOfJoin(Words(ReplaceChar(RemoveChar(Strip(s), '\r'), '\n', ' ')));
  }
}
