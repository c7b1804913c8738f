/**
 * The string operations the feature pipeline relies on, as Python defines
 * them: `str.split()` with no argument, `" ".join`, `str.lower()` and
 * `str.replace(" ", "")`.
 */
module Text {

  /** Python's whitespace (what `str.split()` with no argument splits on). */
  predicate IsSpace(c: char) {
    || '\t' <= c <= '\r'
    || '\U{1C}' <= c <= ' '
    || c == '\U{85}' || c == '\U{A0}' || c == '\U{1680}'
    || '\U{2000}' <= c <= '\U{200A}'
    || c == '\U{2028}' || c == '\U{2029}' || c == '\U{202F}'
    || c == '\U{205F}' || c == '\U{3000}'
  }

  /** A token `str.split()` can produce: non-empty and free of whitespace. */
  predicate IsWord(w: string) {
    |w| > 0 && forall i :: 0 <= i < |w| ==> !IsSpace(w[i])
  }

  /** Length of the longest whitespace-free prefix of `s`. */
  function WordLength(s: string): (n: nat)
    ensures n <= |s|
    ensures forall i :: 0 <= i < n ==> !IsSpace(s[i])
    ensures n < |s| ==> IsSpace(s[n])
  {
    if |s| == 0 || IsSpace(s[0]) then 0 else 1 + WordLength(s[1..])
  }

  /** `s.split()`: the maximal whitespace-free runs of `s`, in order. */
  function Split(s: string): (r: seq<string>)
    ensures forall i :: 0 <= i < |r| ==> IsWord(r[i])
    decreases |s|
  {
    if |s| == 0 then []
    else if IsSpace(s[0]) then Split(s[1..])
    else
      var n := WordLength(s);
      [s[..n]] + Split(s[n..])
  }

  /** `" ".join(ws)`. */
  function Join(ws: seq<string>): string {
    if |ws| == 0 then ""
    else if |ws| == 1 then ws[0]
    else ws[0] + " " + Join(ws[1..])
  }

  /** Where word `i` starts in the single-space join of `ws`: every earlier
      word followed by its separator. */
  function Offset(ws: seq<string>, i: nat): nat
    requires i <= |ws|
  {
    if i == 0 then 0 else |ws[0]| + 1 + Offset(ws[1..], i - 1)
  }

  /** Word `i` of `ws` sits in `r` at its offset. */
  predicate WordAt(r: string, ws: seq<string>, i: nat)
    requires i < |ws|
  {
    Offset(ws, i) + |ws[i]| <= |r| && r[Offset(ws, i)..Offset(ws, i) + |ws[i]|] == ws[i]
  }

  /** Word `i` of `ws` is followed by a space in `r`. */
  predicate SpaceAfter(r: string, ws: seq<string>, i: nat)
    requires i < |ws|
  {
    Offset(ws, i) + |ws[i]| < |r| && r[Offset(ws, i) + |ws[i]|] == ' '
  }

  /** `r` is the words of `ws` in order, each at its offset, with one space
      after every word but the last and nothing else. */
  predicate SpaceJoined(r: string, ws: seq<string>) {
    && |r| == (if |ws| == 0 then 0 else Offset(ws, |ws|) - 1)
    && (forall i :: 0 <= i < |ws| ==> WordAt(r, ws, i))
    && (forall i :: 0 <= i < |ws| - 1 ==> SpaceAfter(r, ws, i))
  }

  /** The words laid end to end, with nothing between them. */
  function Concat(ws: seq<string>): string {
    if |ws| == 0 then "" else ws[0] + Concat(ws[1..])
  }

  /** The characters of `s` that are not whitespace, in order. */
  function NonSpace(s: string): string {
    if |s| == 0 then ""
    else (if IsSpace(s[0]) then "" else [s[0]]) + NonSpace(s[1..])
  }

  /** `[f(w) for w in ws]`. */
  function MapWords(f: string -> string, ws: seq<string>): (r: seq<string>)
    ensures |r| == |ws|
    ensures forall i :: 0 <= i < |ws| ==> r[i] == f(ws[i])
  {
    seq(|ws|, i requires 0 <= i < |ws| => f(ws[i]))
  }

  /** A string that starts with a word splits into that word and the rest. */
  lemma SplitLeadingWord(s: string)
    requires |s| > 0 && !IsSpace(s[0])
    ensures Split(s) == [s[..WordLength(s)]] + Split(s[WordLength(s)..])
  {
  }

  /** Mapping over a leading word maps that word first. */
  lemma MapWordsCons(f: string -> string, w: string, ws: seq<string>)
    ensures MapWords(f, [w] + ws) == [f(w)] + MapWords(f, ws)
  {
  }

  /** The upper-case letters `str.lower()` maps here: ASCII and Latin-1. */
  predicate IsUpper(c: char) {
    || 'A' <= c <= 'Z'
    || ('\U{C0}' <= c <= '\U{DE}' && c != '\U{D7}')
  }

  function LowerChar(c: char): (r: char)
    ensures !IsUpper(r)
    ensures IsUpper(c) ==> r as int == c as int + 32
    ensures !IsUpper(c) ==> r == c
    ensures IsSpace(r) <==> IsSpace(c)
  {
    if IsUpper(c) then (c as int + 32) as char else c
  }

  /** `s.lower()`. */
  function Lower(s: string): (r: string)
    ensures |r| == |s|
    ensures forall i :: 0 <= i < |r| ==> !IsUpper(r[i])
    ensures forall i :: 0 <= i < |s| && IsUpper(s[i]) ==> r[i] as int == s[i] as int + 32
    ensures forall i :: 0 <= i < |s| && !IsUpper(s[i]) ==> r[i] == s[i]
    ensures forall i :: 0 <= i < |s| ==> (IsSpace(r[i]) <==> IsSpace(s[i]))
  {
    seq(|s|, i requires 0 <= i < |s| => LowerChar(s[i]))
  }

  /** `s.replace(" ", "")`: only the ASCII space is removed. */
  function RemoveSpaces(s: string): (r: string)
    ensures ' ' !in r
    ensures ' ' !in s ==> r == s
    ensures forall c :: c != ' ' ==> multiset(r)[c] == multiset(s)[c]
  {
    if |s| == 0 then ""
    else
      assert s == [s[0]] + s[1..];
      (if s[0] == ' ' then "" else [s[0]]) + RemoveSpaces(s[1..])
  }

  // ---------------------------------------------------------------------
  // Split and Join
  // ---------------------------------------------------------------------

  /** A word followed by whitespace (or nothing) is split off as one token. */
  lemma SplitWordThen(w: string, s: string)
    requires IsWord(w)
    requires |s| == 0 || IsSpace(s[0])
    ensures Split(w + s) == [w] + Split(s)
  {
    var t := w + s;
    var n := WordLength(t);
    assert forall i :: 0 <= i < |w| ==> t[i] == w[i];
    assert |s| > 0 ==> t[|w|] == s[0];
    assert n == |w|;
    assert t[..n] == w;
    assert t[n..] == s;
  }

  /** Leading whitespace produces no token. */
  lemma {:induction false} SplitSpacesThen(sp: string, s: string)
    requires forall i :: 0 <= i < |sp| ==> IsSpace(sp[i])
    ensures Split(sp + s) == Split(s)
    decreases |sp|
  {
    if |sp| > 0 {
      assert (sp + s)[0] == sp[0];
      assert (sp + s)[1..] == sp[1..] + s;
      SplitSpacesThen(sp[1..], s);
    } else {
      assert sp + s == s;
    }
  }

  /** The join puts exactly one space between consecutive words and adds
      nothing else: every other character occurs as often as in the words. */
  lemma {:induction false} JoinCounts(ws: seq<string>)
    ensures |ws| > 0 ==> multiset(Join(ws))[' '] == multiset(Concat(ws))[' '] + |ws| - 1
    ensures forall c :: c != ' ' ==> multiset(Join(ws))[c] == multiset(Concat(ws))[c]
    decreases |ws|
  {
    if |ws| == 1 {
      assert Concat(ws) == ws[0] + "";
      assert ws[0] + "" == ws[0];
    } else if |ws| > 1 {
      JoinCounts(ws[1..]);
      assert Join(ws) == ws[0] + " " + Join(ws[1..]);
      assert Concat(ws) == ws[0] + Concat(ws[1..]);
      assert multiset(Join(ws)) == multiset(ws[0]) + multiset{' '} + multiset(Join(ws[1..]));
      assert multiset(Concat(ws)) == multiset(ws[0]) + multiset(Concat(ws[1..]));
    }
  }

  /** A leading word moves every later offset by its length and one space. */
  lemma OffsetCons(w: string, rest: seq<string>, i: nat)
    requires i <= |rest|
    ensures Offset([w] + rest, i + 1) == |w| + 1 + Offset(rest, i)
  {
  }

  /** Word `i + 1` of `[w] + rest` after `w` and a space is word `i` of `rest`
      in the tail; likewise for the space after it below. */
  lemma WordAtCons(w: string, rest: seq<string>, tail: string, i: nat)
    requires i < |rest|
    ensures WordAt(w + " " + tail, [w] + rest, i + 1) <==> WordAt(tail, rest, i)
  {
  }

  lemma SpaceAfterCons(w: string, rest: seq<string>, tail: string, i: nat)
    requires i < |rest|
    ensures SpaceAfter(w + " " + tail, [w] + rest, i + 1) <==> SpaceAfter(tail, rest, i)
  {
  }

  /** A word, a space and a tail are laid out for `[w] + rest` exactly when
      the tail is laid out for `rest`. */
  lemma SpaceJoinedCons(w: string, rest: seq<string>, tail: string)
    requires |rest| > 0
    ensures SpaceJoined(w + " " + tail, [w] + rest) <==> SpaceJoined(tail, rest)
  {
    var r, ws := w + " " + tail, [w] + rest;
    OffsetCons(w, rest, |rest|);
    assert Offset(ws, 0) == 0 && ws[0] == w;
    assert r[0..|w|] == w && r[|w|] == ' ';
    assert WordAt(r, ws, 0) && SpaceAfter(r, ws, 0);
    if SpaceJoined(tail, rest) {
      forall i | 1 <= i < |ws|
        ensures WordAt(r, ws, i)
      {
        WordAtCons(w, rest, tail, i - 1);
      }
      forall i | 1 <= i < |ws| - 1
        ensures SpaceAfter(r, ws, i)
      {
        SpaceAfterCons(w, rest, tail, i - 1);
      }
    }
    if SpaceJoined(r, ws) {
      forall i | 0 <= i < |rest|
        ensures WordAt(tail, rest, i)
      {
        WordAtCons(w, rest, tail, i);
      }
      forall i | 0 <= i < |rest| - 1
        ensures SpaceAfter(tail, rest, i)
      {
        SpaceAfterCons(w, rest, tail, i);
      }
    }
  }

  /** A single word is laid out as itself. */
  lemma SpaceJoinedSingle(r: string, w: string)
    ensures SpaceJoined(r, [w]) <==> r == w
  {
    assert Offset([w], 1) == |w| + 1 + Offset([w][1..], 0);
    assert Offset([w], 0) == 0;
    if r == w {
      assert r[0..|w|] == w;
      assert WordAt(r, [w], 0);
    }
    if SpaceJoined(r, [w]) {
      assert WordAt(r, [w], 0);
      assert r == r[0..|w|];
    }
  }

  /** `" ".join` lays the words out in order with one space between each
      pair. */
  lemma {:induction false} JoinLayout(ws: seq<string>)
    ensures SpaceJoined(Join(ws), ws)
    decreases |ws|
  {
    if |ws| == 1 {
      SpaceJoinedSingle(Join(ws), ws[0]);
      assert ws == [ws[0]];
    } else if |ws| > 1 {
      JoinLayout(ws[1..]);
      SpaceJoinedCons(ws[0], ws[1..], Join(ws[1..]));
      assert ws == [ws[0]] + ws[1..];
    }
  }

  /** The layout leaves no freedom: only the join is laid out that way. */
  lemma {:induction false} SpaceJoinedUnique(r: string, ws: seq<string>)
    requires SpaceJoined(r, ws)
    ensures r == Join(ws)
    decreases |ws|
  {
    if |ws| == 1 {
      assert ws == [ws[0]];
      SpaceJoinedSingle(r, ws[0]);
    } else if |ws| > 1 {
      var w, rest := ws[0], ws[1..];
      assert ws == [w] + rest;
      assert Offset(ws, 0) == 0;
      assert WordAt(r, ws, 0) && SpaceAfter(r, ws, 0);
      var tail := r[|w| + 1..];
      assert r == r[0..|w|] + [r[|w|]] + tail;
      assert r == w + " " + tail;
      SpaceJoinedCons(w, rest, tail);
      SpaceJoinedUnique(tail, rest);
    }
  }

  /** When every entry is a word, splitting the join gives the entries back. */
  lemma JoinOfWords(ws: seq<string>)
    ensures (forall i :: 0 <= i < |ws| ==> IsWord(ws[i])) ==> Split(Join(ws)) == ws
  {
    if forall i :: 0 <= i < |ws| ==> IsWord(ws[i]) {
      SplitJoin(ws);
    }
  }

  /** Splitting the space-join of words gives the words back. */
  lemma {:induction false} SplitJoin(ws: seq<string>)
    requires forall i :: 0 <= i < |ws| ==> IsWord(ws[i])
    ensures Split(Join(ws)) == ws
  {
    if |ws| == 0 {
    } else if |ws| == 1 {
      SplitWordThen(ws[0], "");
      assert ws[0] + "" == ws[0];
    } else {
      var rest := Join(ws[1..]);
      assert Join(ws) == ws[0] + (" " + rest);
      SplitWordThen(ws[0], " " + rest);
      assert (" " + rest)[1..] == rest;
      SplitJoin(ws[1..]);
      assert ws == [ws[0]] + ws[1..];
    }
  }

  lemma {:induction false} NonSpaceAppend(a: string, b: string)
    ensures NonSpace(a + b) == NonSpace(a) + NonSpace(b)
    decreases |a|
  {
    if |a| == 0 {
      assert a + b == b;
    } else {
      assert (a + b)[0] == a[0];
      assert (a + b)[1..] == a[1..] + b;
      NonSpaceAppend(a[1..], b);
    }
  }

  lemma {:induction false} NonSpaceOfRun(s: string)
    requires forall i :: 0 <= i < |s| ==> !IsSpace(s[i])
    ensures NonSpace(s) == s
    decreases |s|
  {
    if |s| > 0 {
      NonSpaceOfRun(s[1..]);
      assert s == [s[0]] + s[1..];
    }
  }

  /** No character other than whitespace is lost or reordered by `split`. */
  lemma {:induction false} SplitKeepsText(s: string)
    ensures Concat(Split(s)) == NonSpace(s)
    decreases |s|
  {
    if |s| == 0 {
    } else if IsSpace(s[0]) {
      SplitKeepsText(s[1..]);
    } else {
      var n := WordLength(s);
      assert s == s[..n] + s[n..];
      NonSpaceAppend(s[..n], s[n..]);
      NonSpaceOfRun(s[..n]);
      SplitKeepsText(s[n..]);
      var r := Split(s);
      assert r == [s[..n]] + Split(s[n..]);
      assert r[1..] == Split(s[n..]);
    }
  }

  // ---------------------------------------------------------------------
  // Lower-casing
  // ---------------------------------------------------------------------

  /** Lower-casing twice is lower-casing once. */
  lemma LowerIdempotent(s: string)
    ensures Lower(Lower(s)) == Lower(s)
  {
  }

  lemma LowerWordLength(s: string)
    ensures WordLength(Lower(s)) == WordLength(s)
  {
  }

  lemma LowerPrefix(s: string, n: nat)
    requires n <= |s|
    ensures Lower(s)[..n] == Lower(s[..n])
  {
  }

  lemma LowerSuffix(s: string, n: nat)
    requires n <= |s|
    ensures Lower(s)[n..] == Lower(s[n..])
  {
  }

  lemma LowerAppend(a: string, b: string)
    ensures Lower(a + b) == Lower(a) + Lower(b)
  {
  }

  /** Lower-casing a join lower-cases each word and keeps the separators. */
  lemma {:induction false} LowerJoin(ws: seq<string>)
    ensures Lower(Join(ws)) == Join(MapWords(Lower, ws))
    decreases |ws|
  {
    var lw := MapWords(Lower, ws);
    if |ws| == 1 {
      assert lw[0] == Lower(ws[0]);
    } else if |ws| > 1 {
      LowerJoin(ws[1..]);
      assert lw[1..] == MapWords(Lower, ws[1..]);
      LowerAppend(ws[0] + " ", Join(ws[1..]));
      LowerAppend(ws[0], " ");
      assert Lower(" ") == " ";
    }
  }

  /** A leading whitespace character of `s` is dropped by both sides. */
  lemma SplitLowerSpaceStep(s: string)
    requires |s| > 0 && IsSpace(s[0])
    requires Split(Lower(s[1..])) == MapWords(Lower, Split(s[1..]))
    ensures Split(Lower(s)) == MapWords(Lower, Split(s))
  {
    LowerSuffix(s, 1);
  }

  /** A leading word of `s` becomes the lower-cased leading token. */
  lemma SplitLowerWordStep(s: string)
    requires |s| > 0 && !IsSpace(s[0])
    requires Split(Lower(s[WordLength(s)..])) == MapWords(Lower, Split(s[WordLength(s)..]))
    ensures Split(Lower(s)) == MapWords(Lower, Split(s))
  {
    var l := Lower(s);
    var n := WordLength(s);
    LowerWordLength(s);
    LowerPrefix(s, n);
    LowerSuffix(s, n);
    assert !IsSpace(l[0]);
    SplitLeadingWord(l);
    SplitLeadingWord(s);
    MapWordsCons(Lower, s[..n], Split(s[n..]));
    calc {
      Split(l);
      [l[..n]] + Split(l[n..]);
      [Lower(s[..n])] + Split(Lower(s[n..]));
      [Lower(s[..n])] + MapWords(Lower, Split(s[n..]));
      MapWords(Lower, [s[..n]] + Split(s[n..]));
      MapWords(Lower, Split(s));
    }
  }

  /** Lower-casing keeps every whitespace boundary: the tokens of `s.lower()`
      are the lower-cased tokens of `s`. */
  lemma {:induction false} SplitLower(s: string)
    ensures Split(Lower(s)) == MapWords(Lower, Split(s))
    decreases |s|
  {
    if |s| == 0 {
    } else if IsSpace(s[0]) {
      SplitLower(s[1..]);
      SplitLowerSpaceStep(s);
    } else {
      SplitLower(s[WordLength(s)..]);
      SplitLowerWordStep(s);
    }
  }

  // ---------------------------------------------------------------------
  // Removing spaces
  // ---------------------------------------------------------------------

  /** Removing spaces works piecewise, so the kept characters stay in order. */
  lemma {:induction false} RemoveSpacesAppend(a: string, b: string)
    ensures RemoveSpaces(a + b) == RemoveSpaces(a) + RemoveSpaces(b)
    decreases |a|
  {
    if |a| == 0 {
      assert a + b == b;
    } else {
      assert (a + b)[0] == a[0];
      assert (a + b)[1..] == a[1..] + b;
      RemoveSpacesAppend(a[1..], b);
    }
  }
}
