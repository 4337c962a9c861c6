/**
 * The pieces of Python's string and list semantics that the core relies on:
 * `str.split()` with no separator, `sep.join(...)`, slices with a missing or
 * negative bound, and `str(n)` for integers.
 */
module PyText {

  /** `c.isspace()`: the characters `str.split()` with no argument splits on. */
  predicate IsSpace(c: char) {
    var n := c as int;
    (9 <= n <= 13) || (28 <= n <= 32) || n == 0x85 || n == 0xA0 || n == 0x1680
    || (0x2000 <= n <= 0x200A) || n == 0x2028 || n == 0x2029 || n == 0x202F
    || n == 0x205F || n == 0x3000
  }

  /** No character of `w` is whitespace. */
  predicate NoSpace(w: string) {
    forall i :: 0 <= i < |w| ==> !IsSpace(w[i])
  }

  /** Length of the longest whitespace-free prefix of `s`. */
  function LeadLen(s: string): (n: nat)
    ensures n <= |s|
    ensures NoSpace(s[..n])
    ensures n < |s| ==> IsSpace(s[n])
  {
    if s == [] || IsSpace(s[0]) then 0 else 1 + LeadLen(s[1..])
  }

  /** `s.split()`: the maximal runs of non-whitespace characters, in order. */
  function Split(s: string): (words: seq<string>)
    ensures forall k :: 0 <= k < |words| ==> words[k] != [] && NoSpace(words[k])
    decreases |s|
  {
    if s == [] then []
    else if IsSpace(s[0]) then Split(s[1..])
    else
      var n := LeadLen(s);
      [s[..n]] + Split(s[n..])
  }

  /** `sep.join(ws)`. */
  function Join(sep: string, ws: seq<string>): string {
    if |ws| == 0 then ""
    else if |ws| == 1 then ws[0]
    else ws[0] + sep + Join(sep, ws[1..])
  }

  /** Where `ws[i]` starts in `sep.join(ws)`. */
  function JoinOffset(sep: string, ws: seq<string>, i: nat): nat
    requires i <= |ws|
  {
    if i == 0 then 0 else |ws[0]| + |sep| + JoinOffset(sep, ws[1..], i - 1)
  }

  /** `w` stands at offset `off` of `j`, followed by `sep` unless it is the last piece, which ends `j`. */
  predicate PlacedAt(j: string, w: string, off: nat, sep: string, last: bool) {
    && off + |w| <= |j|
    && j[off..off + |w|] == w
    && (!last ==> off + |w| + |sep| <= |j| && j[off + |w|..off + |w| + |sep|] == sep)
    && (last ==> off + |w| == |j|)
  }

  /** In `sep.join(ws)` each `ws[i]` stands at its offset, followed by `sep` unless it is the last, which ends the string. */
  lemma {:induction false} JoinAt(sep: string, ws: seq<string>, i: nat)
    requires i < |ws|
    ensures PlacedAt(Join(sep, ws), ws[i], JoinOffset(sep, ws, i), sep, i == |ws| - 1)
    decreases i
  {
    if |ws| == 1 {
      assert Join(sep, ws) == ws[0] && JoinOffset(sep, ws, i) == 0;
      assert Join(sep, ws)[0..|ws[0]|] == ws[0];
    } else {
      var rest := Join(sep, ws[1..]);
      assert Join(sep, ws) == (ws[0] + sep) + rest;
      if i == 0 {
        assert JoinOffset(sep, ws, i) == 0;
        JoinHead(ws[0], sep, rest);
      } else {
        var off := JoinOffset(sep, ws[1..], i - 1);
        assert JoinOffset(sep, ws, i) == |ws[0] + sep| + off;
        assert ws[1..][i - 1] == ws[i];
        JoinAt(sep, ws[1..], i - 1);
        PlacedShift(ws[0] + sep, rest, ws[i], off, sep, i == |ws| - 1);
      }
    }
  }

  lemma JoinHead(w: string, sep: string, rest: string)
    ensures (w + sep + rest)[..|w|] == w
    ensures (w + sep + rest)[|w|..|w| + |sep|] == sep
  {
  }

  /** A placed piece stays placed, shifted by the prefix, when something is put in front. */
  lemma PlacedShift(prefix: string, rest: string, w: string, off: nat, sep: string, last: bool)
    requires PlacedAt(rest, w, off, sep, last)
    ensures PlacedAt(prefix + rest, w, |prefix| + off, sep, last)
  {
    var j := prefix + rest;
    assert j[|prefix| + off..|prefix| + off + |w|] == rest[off..off + |w|];
    if !last {
      assert j[|prefix| + off + |w|..|prefix| + off + |w| + |sep|] == rest[off + |w|..off + |w| + |sep|];
    }
  }

  /** `" ".join(s.split())`: whitespace runs collapsed to one space, ends trimmed. */
  function Normalize(s: string): string {
    Join(" ", Split(s))
  }

  /** Every whitespace character is a single ASCII space with a non-whitespace character on each side. */
  predicate IsNormalized(t: string) {
    forall i :: 0 <= i < |t| && IsSpace(t[i]) ==>
      t[i] == ' ' && 0 < i < |t| - 1 && !IsSpace(t[i - 1]) && !IsSpace(t[i + 1])
  }

  predicate AllSpace(s: string) {
    forall i :: 0 <= i < |s| ==> IsSpace(s[i])
  }

  lemma {:induction false} SplitEmptyIff(s: string)
    ensures Split(s) == [] <==> AllSpace(s)
    decreases |s|
  {
    if s != [] && IsSpace(s[0]) {
      SplitEmptyIff(s[1..]);
      assert AllSpace(s) <==> AllSpace(s[1..]) by {
        if AllSpace(s[1..]) {
          forall i | 0 <= i < |s| ensures IsSpace(s[i]) {
            if i > 0 { assert s[i] == s[1..][i - 1]; }
          }
        }
      }
    }
  }

  lemma JoinEmptyIff(sep: string, ws: seq<string>)
    requires forall k :: 0 <= k < |ws| ==> ws[k] != []
    ensures Join(sep, ws) == [] <==> ws == []
  {
  }

  /** A normalised text is empty exactly when the input held only whitespace. */
  lemma NormalizeEmptyIff(s: string)
    ensures Normalize(s) == "" <==> AllSpace(s)
  {
    SplitEmptyIff(s);
    JoinEmptyIff(" ", Split(s));
  }

  /** Joining non-empty, whitespace-free words with single spaces gives a normalised text. */
  lemma {:induction false} JoinWordsNormalized(ws: seq<string>)
    requires forall k :: 0 <= k < |ws| ==> ws[k] != [] && NoSpace(ws[k])
    ensures IsNormalized(Join(" ", ws))
    ensures ws != [] ==> Join(" ", ws) != [] && !IsSpace(Join(" ", ws)[0])
                         && !IsSpace(Join(" ", ws)[|Join(" ", ws)| - 1])
  {
    if |ws| == 1 {
      assert Join(" ", ws) == ws[0];
    } else if |ws| > 1 {
      var w, rest := ws[0], Join(" ", ws[1..]);
      JoinWordsNormalized(ws[1..]);
      var t := w + " " + rest;
      assert Join(" ", ws) == t;
      forall i | 0 <= i < |t| && IsSpace(t[i])
        ensures t[i] == ' ' && 0 < i < |t| - 1 && !IsSpace(t[i - 1]) && !IsSpace(t[i + 1])
      {
        if i > |w| {
          assert t[i] == rest[i - |w| - 1];
          if i - |w| - 1 > 0 {
            assert t[i - 1] == rest[i - |w| - 2];
          }
          assert t[i + 1] == rest[i - |w|];
        } else if i == |w| {
          assert t[i - 1] == w[|w| - 1];
          assert t[i + 1] == rest[0];
        }
      }
      assert t[0] == w[0];
      assert t[|t| - 1] == rest[|rest| - 1];
    }
  }

  /**
   * The whitespace runs of `s` around its words: the run before the first
   * word, the run between each two words, and the run after the last word.
   */
  function Gaps(s: string): (gs: seq<string>)
    ensures |gs| == |Split(s)| + 1
    decreases |s|
  {
    if s == [] then [""]
    else if IsSpace(s[0]) then
      var g := Gaps(s[1..]);
      [[s[0]] + g[0]] + g[1..]
    else
      [""] + Gaps(s[LeadLen(s)..])
  }

  /** `gs[0] + ws[0] + gs[1] + ... + ws[n-1] + gs[n]`. */
  function Weave(gs: seq<string>, ws: seq<string>): string
    requires |gs| == |ws| + 1
  {
    if ws == [] then gs[0] else gs[0] + ws[0] + Weave(gs[1..], ws[1..])
  }

  /** Putting the gaps back between the words rebuilds the text: the words are the text's non-whitespace runs, in order. */
  lemma {:induction false} WeaveGaps(s: string)
    ensures Weave(Gaps(s), Split(s)) == s
    decreases |s|
  {
    if s != [] {
      if IsSpace(s[0]) {
        var g := Gaps(s[1..]);
        WeaveGaps(s[1..]);
        assert Gaps(s) == [[s[0]] + g[0]] + g[1..];
        assert Split(s) == Split(s[1..]);
        WeaveSpace(s[0], g, Split(s[1..]));
        assert s == [s[0]] + s[1..];
      } else {
        var n := LeadLen(s);
        WeaveGaps(s[n..]);
        assert Gaps(s) == [""] + Gaps(s[n..]);
        assert Split(s) == [s[..n]] + Split(s[n..]);
        WeaveWord(s[..n], Gaps(s[n..]), Split(s[n..]));
        assert s == s[..n] + s[n..];
      }
    }
  }

  /** A whitespace character in front of the first gap goes in front of the whole. */
  lemma WeaveSpace(c: char, g: seq<string>, ws: seq<string>)
    requires |g| == |ws| + 1
    ensures Weave([[c] + g[0]] + g[1..], ws) == [c] + Weave(g, ws)
  {
    var gs := [[c] + g[0]] + g[1..];
    assert gs[0] == [c] + g[0] && gs[1..] == g[1..];
    if ws != [] {
      var tail := ws[0] + Weave(g[1..], ws[1..]);
      assert Weave(gs, ws) == ([c] + g[0]) + tail;
    }
  }

  /** A word after an empty first gap goes in front of the whole. */
  lemma WeaveWord(w: string, g: seq<string>, ws: seq<string>)
    requires |g| == |ws| + 1
    ensures Weave([""] + g, [w] + ws) == w + Weave(g, ws)
  {
    var gs, vs := [""] + g, [w] + ws;
    assert gs[0] == "" && vs[0] == w && gs[1..] == g && vs[1..] == ws;
    assert Weave(gs, vs) == "" + w + Weave(g, ws);
    assert "" + w == w;
  }

  /** Every gap is whitespace only, and every gap between two words is non-empty. */
  lemma {:induction false} GapsAreSpace(s: string)
    ensures forall k :: 0 <= k < |Gaps(s)| ==> AllSpace(Gaps(s)[k])
    ensures forall k :: 0 < k < |Gaps(s)| - 1 ==> Gaps(s)[k] != []
    decreases |s|
  {
    if s != [] {
      var gs := Gaps(s);
      if IsSpace(s[0]) {
        var g := Gaps(s[1..]);
        GapsAreSpace(s[1..]);
        assert gs[0] == [s[0]] + g[0];
        forall k | 0 < k < |gs| ensures gs[k] == g[k] {
          assert gs[k] == g[1..][k - 1];
        }
      } else {
        var n := LeadLen(s);
        var g := Gaps(s[n..]);
        GapsAreSpace(s[n..]);
        assert forall k :: 0 < k < |gs| ==> gs[k] == g[k - 1];
        if |g| > 1 {
          assert s[n..] != [] && IsSpace(s[n..][0]);
          assert g[0] != [];
        }
      }
    }
  }

  /** The words of a text whose first `|w|` characters are a word followed by whitespace or by nothing start with that word. */
  lemma {:induction false} LeadLenWord(w: string, x: string)
    requires NoSpace(w)
    requires x == [] || IsSpace(x[0])
    ensures LeadLen(w + x) == |w|
    decreases |w|
  {
    if w != [] {
      assert (w + x)[0] == w[0];
      assert (w + x)[1..] == w[1..] + x;
      LeadLenWord(w[1..], x);
    } else {
      assert w + x == x;
    }
  }

  /** Splitting words joined by single spaces gives the words back. */
  lemma {:induction false} SplitJoinWords(ws: seq<string>)
    requires forall k :: 0 <= k < |ws| ==> ws[k] != [] && NoSpace(ws[k])
    ensures Split(Join(" ", ws)) == ws
  {
    if |ws| == 1 {
      var w := ws[0];
      assert Join(" ", ws) == w;
      LeadLenWord(w, "");
      assert w + "" == w && w[..|w|] == w && w[|w|..] == "";
    } else if |ws| > 1 {
      var w, r := ws[0], Join(" ", ws[1..]);
      var t := w + (" " + r);
      assert Join(" ", ws) == t;
      LeadLenWord(w, " " + r);
      assert t[..|w|] == w && t[|w|..] == " " + r;
      assert (" " + r)[1..] == r;
      SplitJoinWords(ws[1..]);
      assert Split(t) == [w] + ws[1..];
    }
  }

  /** Normalising keeps the words of the text, in order. */
  lemma NormalizeKeepsWords(s: string)
    ensures Split(Normalize(s)) == Split(s)
  {
    SplitJoinWords(Split(s));
  }

  /** The result of `Normalize` is in normal form. */
  lemma NormalizeIsNormalized(s: string)
    ensures IsNormalized(Normalize(s))
  {
    JoinWordsNormalized(Split(s));
  }

  /** Normalising a text that is already in normal form leaves it unchanged. */
  lemma {:induction false} NormalizedIsFixed(t: string)
    requires IsNormalized(t)
    ensures Normalize(t) == t
    decreases |t|
  {
    if t != [] {
      assert !IsSpace(t[0]);
      var n := LeadLen(t);
      if n == |t| {
        assert t[..n] == t;
        assert Split(t) == [t] + Split([]);
      } else {
        var w, rest := t[..n], t[n + 1..];
        assert t[n] == ' ' && n + 1 < |t| && !IsSpace(t[n + 1]);
        NormalizedAfterSpace(t, n + 1);
        NormalizedIsFixed(rest);
        SplitAfterWord(t);
        assert Split(rest) != [] by {
          SplitEmptyIff(rest);
          assert rest[0] == t[n + 1];
        }
        assert t == w + " " + rest;
        WordThenFixed(w, rest);
      }
    }
  }

  /** A word, one space, then a text that normalisation leaves alone: normalisation leaves the whole alone. */
  lemma WordThenFixed(w: string, rest: string)
    requires Split(w + " " + rest) == [w] + Split(rest) && Split(rest) != []
    requires Normalize(rest) == rest
    ensures Normalize(w + " " + rest) == w + " " + rest
  {
    JoinCons(" ", w, Split(rest));
  }

  /** A text starting with a word that is followed by whitespace splits into that word and the split of what follows the first whitespace character. */
  lemma SplitAfterWord(t: string)
    requires t != [] && !IsSpace(t[0]) && LeadLen(t) < |t|
    ensures Split(t) == [t[..LeadLen(t)]] + Split(t[LeadLen(t) + 1..])
  {
    var n := LeadLen(t);
    assert t[n..][1..] == t[n + 1..];
  }

  lemma JoinCons(sep: string, w: string, ws: seq<string>)
    requires ws != []
    ensures Join(sep, [w] + ws) == w + sep + Join(sep, ws)
  {
    assert ([w] + ws)[1..] == ws;
  }

  /** What follows a space of a normalised text is normalised. */
  lemma NormalizedAfterSpace(t: string, m: nat)
    requires IsNormalized(t) && 0 < m <= |t| && IsSpace(t[m - 1])
    ensures IsNormalized(t[m..])
  {
    var rest := t[m..];
    forall j | 0 <= j < |rest| && IsSpace(rest[j])
      ensures rest[j] == ' ' && 0 < j < |rest| - 1 && !IsSpace(rest[j - 1]) && !IsSpace(rest[j + 1])
    {
      assert rest[j] == t[m + j];
      if j > 0 { assert rest[j - 1] == t[m + j - 1]; }
      assert m + j < |t| - 1;
      assert rest[j + 1] == t[m + j + 1];
    }
  }

  /** Normalising twice is the same as normalising once. */
  lemma NormalizeIdempotent(s: string)
    ensures Normalize(Normalize(s)) == Normalize(s)
  {
    NormalizeIsNormalized(s);
    NormalizedIsFixed(Normalize(s));
  }

  /** Number of whitespace characters at the start of `s`. */
  function LeadingSpace(s: string): (n: nat)
    ensures n <= |s|
    ensures n < |s| ==> !IsSpace(s[n])
    decreases |s|
  {
    if s == [] || !IsSpace(s[0]) then 0 else 1 + LeadingSpace(s[1..])
  }

  /** Number of whitespace characters at the end of `s`. */
  function TrailingSpace(s: string): (n: nat)
    ensures n <= |s|
    ensures n < |s| ==> !IsSpace(s[|s| - n - 1])
    decreases |s|
  {
    if s == [] || !IsSpace(s[|s| - 1]) then 0 else 1 + TrailingSpace(s[..|s| - 1])
  }

  /** The characters `LeadingSpace` counts are all whitespace. */
  lemma {:induction false} LeadingSpaceAll(s: string)
    ensures AllSpace(s[..LeadingSpace(s)])
    decreases |s|
  {
    if s != [] && IsSpace(s[0]) {
      LeadingSpaceAll(s[1..]);
      var n := LeadingSpace(s);
      assert s[..n] == [s[0]] + s[1..][..n - 1];
    }
  }

  /** The characters `TrailingSpace` counts are all whitespace. */
  lemma {:induction false} TrailingSpaceAll(s: string)
    ensures AllSpace(s[|s| - TrailingSpace(s)..])
    decreases |s|
  {
    if s != [] && IsSpace(s[|s| - 1]) {
      var init := s[..|s| - 1];
      TrailingSpaceAll(init);
      var n := TrailingSpace(s);
      assert s[|s| - n..] == init[|init| - (n - 1)..] + [s[|s| - 1]];
    }
  }

  /** `s.strip()`: `s` without its leading and trailing whitespace. */
  function Strip(s: string): string {
    var t := s[LeadingSpace(s)..];
    t[..|t| - TrailingSpace(t)]
  }

  /** `s.strip()` is a piece of `s` that neither starts nor ends with whitespace, and only whitespace is cut off around it; it is empty exactly when `s` is all whitespace. */
  lemma StripShape(s: string)
    ensures LeadingSpace(s) + |Strip(s)| <= |s|
    ensures s == s[..LeadingSpace(s)] + Strip(s) + s[LeadingSpace(s) + |Strip(s)|..]
    ensures AllSpace(s[..LeadingSpace(s)]) && AllSpace(s[LeadingSpace(s) + |Strip(s)|..])
    ensures Strip(s) != [] ==> !IsSpace(Strip(s)[0]) && !IsSpace(Strip(s)[|Strip(s)| - 1])
  {
    var a := LeadingSpace(s);
    var t := s[a..];
    var b := TrailingSpace(t);
    var r := t[..|t| - b];
    assert r == Strip(s);
    LeadingSpaceAll(s);
    TrailingSpaceAll(t);
    SliceOfDrop(s, a, |t| - b);
    ThreePieces(s, a, |r|);
    DropOfDrop(s, a, |t| - b);
    if r != [] {
      assert r[0] == s[a];
      assert r[|r| - 1] == t[|t| - b - 1];
    }
  }

  lemma SliceOfDrop<T>(s: seq<T>, a: nat, k: nat)
    requires a + k <= |s|
    ensures s[a..][..k] == s[a..a + k]
  {
  }

  lemma DropOfDrop<T>(s: seq<T>, a: nat, k: nat)
    requires a + k <= |s|
    ensures s[a..][k..] == s[a + k..]
  {
  }

  lemma AppendAssoc<T>(x: seq<T>, y: seq<T>, z: seq<T>)
    ensures x + (y + z) == x + y + z
  {
  }

  lemma ThreePieces<T>(s: seq<T>, a: nat, k: nat)
    requires a + k <= |s|
    ensures s == s[..a] + s[a..a + k] + s[a + k..]
  {
    assert s == s[..a] + s[a..];
    assert s[a..] == s[a..a + k] + s[a + k..];
  }

  /** `s.strip()` is empty exactly when `s` holds only whitespace. */
  lemma StripEmptyIff(s: string)
    ensures Strip(s) == [] <==> AllSpace(s)
  {
    StripShape(s);
    var r := Strip(s);
    var a := LeadingSpace(s);
    if r != [] {
      assert s[a] == r[0];
    } else {
      SpaceAround(s[..a], s[a..]);
      assert s[..a] + s[a..] == s;
    }
  }

  lemma SpaceAround(x: string, y: string)
    requires AllSpace(x) && AllSpace(y)
    ensures AllSpace(x + y)
  {
    forall i | 0 <= i < |x + y| ensures IsSpace((x + y)[i]) {
      if i >= |x| {
        assert (x + y)[i] == y[i - |x|];
      }
    }
  }

  /** Stripping twice is stripping once. */
  lemma StripIdempotent(s: string)
    ensures Strip(Strip(s)) == Strip(s)
  {
    StripShape(s);
    var r := Strip(s);
    if r != [] {
      assert LeadingSpace(r) == 0;
      assert TrailingSpace(r) == 0;
      assert r[0..] == r;
    }
  }

  function Min(a: int, b: int): int {
    if a <= b then a else b
  }

  /** `s[n:]` for `n >= 0`: empty when `n` is past the end. */
  function Drop<T>(s: seq<T>, n: nat): (r: seq<T>)
    ensures n <= |s| ==> s == s[..n] + r
    ensures n >= |s| ==> r == []
  {
    if n <= |s| then s[n..] else []
  }

  /** The index Python uses for a slice bound `i` on a sequence of length `len`. */
  function SliceIndex(len: nat, i: int): (j: nat)
    ensures j <= len
    ensures 0 <= i ==> j == if i <= len then i else len
    ensures i < 0 ==> j == if -i <= len then len + i else 0
  {
    if i < 0 then (if len + i < 0 then 0 else len + i)
    else if i > len then len else i
  }

  /** `xs[i:]` for any integer `i`. */
  function SliceFrom<T>(xs: seq<T>, i: int): seq<T> {
    xs[SliceIndex(|xs|, i)..]
  }

  /** `xs[:i]` for any integer `i`. */
  function SliceTo<T>(xs: seq<T>, i: int): seq<T> {
    xs[..SliceIndex(|xs|, i)]
  }

  // --- str(n) for integers ---

  predicate IsDigit(c: char) {
    '0' <= c <= '9'
  }

  function DigitChar(d: nat): (c: char)
    requires d < 10
    ensures IsDigit(c)
  {
    ('0' as int + d) as char
  }

  function DigitValue(c: char): nat
    requires IsDigit(c)
  {
    (c as int - '0' as int) as nat
  }

  /** `str(n)` for `n >= 0`: decimal digits, most significant first. */
  function NatToString(n: nat): (s: string)
    ensures s != [] && forall i :: 0 <= i < |s| ==> IsDigit(s[i])
    ensures |s| > 1 ==> s[0] != '0'
    decreases n
  {
    if n < 10 then [DigitChar(n)] else NatToString(n / 10) + [DigitChar(n % 10)]
  }

  /** `str(i)` for any integer. */
  function IntToString(i: int): string {
    if i < 0 then "-" + NatToString(-i) else NatToString(i)
  }

  /** `int(s)` for a string of decimal digits. */
  function ParseNat(s: string): nat
    requires s != [] && forall i :: 0 <= i < |s| ==> IsDigit(s[i])
  {
    if |s| == 1 then DigitValue(s[0])
    else 10 * ParseNat(s[..|s| - 1]) + DigitValue(s[|s| - 1])
  }

  /** `int(s)` for an optional minus sign followed by decimal digits. */
  function ParseInt(s: string): int
    requires s != []
    requires s[0] == '-' ==> |s| > 1 && forall i :: 1 <= i < |s| ==> IsDigit(s[i])
    requires s[0] != '-' ==> forall i :: 0 <= i < |s| ==> IsDigit(s[i])
  {
    if s[0] == '-' then 0 - ParseNat(s[1..]) as int else ParseNat(s)
  }

  lemma {:induction false} NatToStringRoundTrip(n: nat)
    ensures ParseNat(NatToString(n)) == n
    decreases n
  {
    if n >= 10 {
      NatToStringRoundTrip(n / 10);
      var s := NatToString(n);
      assert s[..|s| - 1] == NatToString(n / 10);
    }
  }

  /** Reading back the decimal rendering of an integer gives the integer. */
  lemma IntToStringRoundTrip(i: int)
    ensures var s := IntToString(i); s != [] && (s[0] == '-' <==> i < 0) && ParseInt(s) == i
  {
    if i < 0 {
      NatToStringRoundTrip(-i);
      assert IntToString(i)[1..] == NatToString(-i);
    } else {
      NatToStringRoundTrip(i);
    }
  }
}
