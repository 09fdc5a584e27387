/** The Python string and list built-ins the backend relies on:
    `str.isspace`, `strip`, `lstrip(chars)`, `split()`, `split(sep)`,
    `join`, `lower`, `in`, `startswith`, `str(int)`, slicing and filtering
    list comprehensions. */
module PyText {

  /** Python's `str.isspace()` on one character; `split()` and `strip()`
      with no argument use exactly these characters. */
  predicate IsSpace(c: char) {
    || '\t' <= c <= '\r'              // \t \n \x0b \x0c \r
    || '\U{1c}' <= c <= ' '            // the four separators and the space
    || c == '\U{85}' || c == '\U{a0}' || c == '\U{1680}'
    || '\U{2000}' <= c <= '\U{200a}'
    || c == '\U{2028}' || c == '\U{2029}' || c == '\U{202f}' || c == '\U{205f}'
    || c == '\U{3000}'
  }

  /** Every character is whitespace: the text Python treats as blank. */
  predicate IsBlank(s: string) {
    forall i :: 0 <= i < |s| ==> IsSpace(s[i])
  }

  predicate NoSpace(s: string) {
    forall i :: 0 <= i < |s| ==> !IsSpace(s[i])
  }

  // ---------------------------------------------------------------- strip

  /* The strip functions promise only a length bound; what they drop and
     what they keep is stated by the `...Shape` lemmas, which a proof calls
     where it needs them. */

  /** `s.lstrip(chars)`: drops the longest prefix made of characters of `chars`. */
  function LStripChars(s: string, chars: string): (r: string)
    ensures |r| <= |s|
  {
    if s != [] && s[0] in chars then LStripChars(s[1..], chars) else s
  }

  /** `lstrip(chars)` keeps a suffix, drops only characters of `chars`, and
      what it keeps does not start with one. */
  lemma {:induction false} LStripCharsShape(s: string, chars: string)
    ensures var r := LStripChars(s, chars);
            r == s[|s| - |r|..]
            && (forall i :: 0 <= i < |s| - |r| ==> s[i] in chars)
            && (r != [] ==> r[0] !in chars)
    decreases |s|
  {
    if s != [] && s[0] in chars {
      LStripCharsShape(s[1..], chars);
      var r := LStripChars(s, chars);
      assert s[1..][|s| - 1 - |r|..] == s[|s| - |r|..];
      forall i | 0 < i < |s| - |r| ensures s[i] in chars {
        assert s[1..][i - 1] == s[i];
      }
    }
  }

  /** `s.rstrip()` */
  function RStrip(s: string): (r: string)
    ensures |r| <= |s|
  {
    if s != [] && IsSpace(s[|s| - 1]) then RStrip(s[..|s| - 1]) else s
  }

  /** `rstrip()` keeps a prefix, drops only whitespace, and what it keeps
      does not end in whitespace. */
  lemma {:induction false} RStripShape(s: string)
    ensures var r := RStrip(s);
            r == s[..|r|]
            && (forall i :: |r| <= i < |s| ==> IsSpace(s[i]))
            && (r != [] ==> !IsSpace(r[|r| - 1]))
    decreases |s|
  {
    if s != [] && IsSpace(s[|s| - 1]) {
      RStripShape(s[..|s| - 1]);
      var r := RStrip(s);
      assert s[..|s| - 1][..|r|] == s[..|r|];
      forall i | |r| <= i < |s| - 1 ensures IsSpace(s[i]) {
        assert s[..|s| - 1][i] == s[i];
      }
    }
  }

  /** `s.lstrip()` */
  function LStrip(s: string): (r: string)
    ensures |r| <= |s|
  {
    if s != [] && IsSpace(s[0]) then LStrip(s[1..]) else s
  }

  /** `lstrip()` keeps a suffix, drops only whitespace, and what it keeps
      does not start with whitespace. */
  lemma {:induction false} LStripShape(s: string)
    ensures var r := LStrip(s);
            r == s[|s| - |r|..]
            && (forall i :: 0 <= i < |s| - |r| ==> IsSpace(s[i]))
            && (r != [] ==> !IsSpace(r[0]))
    decreases |s|
  {
    if s != [] && IsSpace(s[0]) {
      LStripShape(s[1..]);
      var r := LStrip(s);
      assert s[1..][|s| - 1 - |r|..] == s[|s| - |r|..];
      forall i | 0 < i < |s| - |r| ensures IsSpace(s[i]) {
        assert s[1..][i - 1] == s[i];
      }
    }
  }

  /** `s.strip()`: the text between the leading and the trailing whitespace. */
  function Strip(s: string): (r: string)
    ensures |r| <= |s|
  {
    RStrip(LStrip(s))
  }

  /** A stripped text neither starts nor ends with whitespace. */
  lemma StripEnds(s: string)
    ensures var r := Strip(s);
            r != [] ==> !IsSpace(r[0]) && !IsSpace(r[|r| - 1])
  {
    var t := LStrip(s);
    LStripShape(s);
    RStripShape(t);
    var r := RStrip(t);
    if r != [] {
      assert r[0] == t[0];
    }
  }

  /** A stripped text is empty exactly when the original is blank. */
  lemma {:induction false} StripEmptyIffBlank(s: string)
    ensures Strip(s) == [] <==> IsBlank(s)
  {
    if IsBlank(s) {
      LStripBlank(s);
    } else {
      var k :| 0 <= k < |s| && !IsSpace(s[k]);
      StripKeeps(s, k);
    }
  }

  lemma StripKeeps(s: string, k: int)
    requires 0 <= k < |s| && !IsSpace(s[k])
    ensures Strip(s) != []
  {
    var t := LStrip(s);
    LStripShape(s);
    var d := |s| - |t|;
    assert k >= d;
    assert t[k - d] == s[k];
    RStripShape(t);
    var r := RStrip(t);
    assert |r| > k - d;
  }

  lemma {:induction false} LStripBlank(s: string)
    requires IsBlank(s)
    ensures LStrip(s) == []
  {
    if s != [] {
      LStripBlank(s[1..]);
    }
  }

  /** Stripping twice is stripping once. */
  lemma StripIdempotent(s: string)
    ensures Strip(Strip(s)) == Strip(s)
  {
    var r := Strip(s);
    StripEnds(s);
    if r != [] {
      assert LStrip(r) == r;
      assert RStrip(r) == r;
    }
  }

  // ---------------------------------------------------------------- split()

  /** The longest prefix of `t` without whitespace. */
  function WordPrefix(t: string): (w: string)
    ensures |w| <= |t|
  {
    if t == [] || IsSpace(t[0]) then [] else [t[0]] + WordPrefix(t[1..])
  }

  lemma {:induction false} WordPrefixShape(t: string)
    ensures var w := WordPrefix(t);
            w == t[..|w|] && NoSpace(w) && (|w| < |t| ==> IsSpace(t[|w|]))
    decreases |t|
  {
    if !(t == [] || IsSpace(t[0])) {
      WordPrefixShape(t[1..]);
      var w := WordPrefix(t);
      assert w == [t[0]] + WordPrefix(t[1..]);
      assert t[1..][..|w| - 1] == t[1..|w|];
      forall i | 0 < i < |w| ensures !IsSpace(w[i]) {
        assert w[i] == WordPrefix(t[1..])[i - 1];
      }
    }
  }

  /** Every element is a non-empty run of non-whitespace characters. */
  predicate AllWords(ws: seq<string>) {
    ws == [] || (ws[0] != [] && NoSpace(ws[0]) && AllWords(ws[1..]))
  }

  /** `s.split()`: the maximal runs of non-whitespace characters, in order. */
  function Words(s: string): (ws: seq<string>)
    ensures AllWords(ws)
    decreases |s|
  {
    var t := LStrip(s);
    if t == [] then []
    else
      var w := WordPrefix(t);
      LStripShape(s);
      WordPrefixShape(t);
      [w] + Words(t[|w|..])
  }

  /** `s.split()` is empty exactly for blank text. */
  lemma {:induction false} WordsEmptyIffBlank(s: string)
    ensures Words(s) == [] <==> IsBlank(s)
  {
    var t := LStrip(s);
    LStripShape(s);
    if t == [] {
      forall i | 0 <= i < |s| ensures IsSpace(s[i]) { }
    } else {
      assert !IsSpace(t[0]) && t[0] == s[|s| - |t|];
    }
  }

  /** `sep.join(ws)` */
  function Join(ws: seq<string>, sep: string): string
    decreases |ws|
  {
    if ws == [] then []
    else if |ws| == 1 then ws[0]
    else Join(ws[..|ws| - 1], sep) + sep + ws[|ws| - 1]
  }

  /** The same join read from the front: the first piece, the separator,
      then the join of the others. */
  lemma {:induction false} JoinFront(ws: seq<string>, sep: string)
    requires |ws| > 1
    ensures Join(ws, sep) == ws[0] + sep + Join(ws[1..], sep)
    decreases |ws|
  {
    var n := |ws|;
    if n == 2 {
      assert ws[..1] == [ws[0]];
      assert ws[1..] == [ws[1]];
    } else {
      var init := ws[..n - 1];
      JoinFront(init, sep);
      assert init[1..] == ws[1..][..n - 2];
      assert ws[1..][n - 2] == ws[n - 1];
    }
  }

  /** Splitting the space-join of whitespace-free words gives the words back. */
  lemma {:induction false} WordsOfJoin(ws: seq<string>)
    requires AllWords(ws)
    ensures Words(Join(ws, " ")) == ws
  {
    if |ws| == 1 {
      WordsStep(ws[0], []);
      assert ws[0] + [] == ws[0] == Join(ws, " ");
    } else if |ws| > 1 {
      WordsOfJoinCons(ws);
      WordsOfJoin(ws[1..]);
      assert [ws[0]] + ws[1..] == ws;
    }
  }

  /** Every element of a list of words is a word, and so is every slice of it. */
  lemma {:induction false} AllWordsAt(ws: seq<string>, k: int)
    requires AllWords(ws) && 0 <= k < |ws|
    ensures ws[k] != [] && NoSpace(ws[k])
  {
    if k > 0 {
      AllWordsAt(ws[1..], k - 1);
    }
  }

  lemma AllWordsSlice(ws: seq<string>, i: int, j: int)
    requires AllWords(ws)
    ensures AllWords(Slice(ws, i, j))
  {
    var lo := SliceBound(|ws|, i);
    var hi := SliceBound(|ws|, j);
    if lo < hi {
      AllWordsDrop(ws, lo);
      AllWordsTake(ws[lo..], hi - lo);
      assert ws[lo..][..hi - lo] == ws[lo..hi];
    }
  }

  lemma {:induction false} AllWordsDrop(ws: seq<string>, i: nat)
    requires AllWords(ws) && i <= |ws|
    ensures AllWords(ws[i..])
  {
    if i > 0 {
      AllWordsDrop(ws[1..], i - 1);
      assert ws[1..][i - 1..] == ws[i..];
    }
  }

  lemma {:induction false} AllWordsTake(ws: seq<string>, n: nat)
    requires AllWords(ws) && n <= |ws|
    ensures AllWords(ws[..n])
  {
    if n > 0 {
      AllWordsTake(ws[1..], n - 1);
      assert ws[..n][1..] == ws[1..][..n - 1];
    }
  }

  lemma WordsOfJoinCons(ws: seq<string>)
    requires |ws| > 1 && ws[0] != [] && NoSpace(ws[0])
    ensures Words(Join(ws, " ")) == [ws[0]] + Words(Join(ws[1..], " "))
  {
    JoinFront(ws, " ");
    WordsSpaced(Join(ws, " "), ws[0], Join(ws[1..], " "));
  }

  /** A word, one space, then the rest: the word comes first, then the rest's words. */
  lemma WordsSpaced(s: string, w: string, rest: string)
    requires w != [] && NoSpace(w)
    requires s == w + " " + rest
    ensures Words(s) == [w] + Words(rest)
  {
    assert s == w + ([' '] + rest);
    WordsStep(w, [' '] + rest);
    WordsCons(' ', rest);
  }

  /** A leading word followed by whitespace (or nothing) is the first word. */
  lemma WordsStep(w: string, tail: string)
    requires w != [] && NoSpace(w)
    requires tail == [] || IsSpace(tail[0])
    ensures Words(w + tail) == [w] + Words(tail)
  {
    var s := w + tail;
    assert s[0] == w[0];
    assert LStrip(s) == s;
    WordPrefixOf(w, tail);
    assert s[|w|..] == tail;
  }

  lemma WordPrefixOf(w: string, tail: string)
    requires NoSpace(w)
    requires tail == [] || IsSpace(tail[0])
    ensures WordPrefix(w + tail) == w
  {
    if w != [] {
      assert (w + tail)[1..] == w[1..] + tail;
      WordPrefixOf(w[1..], tail);
    }
  }

  lemma WordsCons(c: char, s: string)
    requires IsSpace(c)
    ensures Words([c] + s) == Words(s)
  {
    assert ([c] + s)[1..] == s;
    assert LStrip([c] + s) == LStrip(s);
  }

  // ---------------------------------------------------------------- split(sep)

  /** `s.split(sep)` for a one-character separator: empty pieces are kept,
      and the empty text gives one empty piece. */
  function Split(s: string, sep: char): (parts: seq<string>)
    ensures |parts| >= 1
    ensures forall k :: 0 <= k < |parts| ==> sep !in parts[k]
  {
    if s == [] then [[]]
    else
      var rest := Split(s[1..], sep);
      if s[0] == sep then [[]] + rest else [[s[0]] + rest[0]] + rest[1..]
  }

  /** Joining the pieces with the separator gives the text back. */
  lemma {:induction false} JoinSplit(s: string, sep: char)
    ensures Join(Split(s, sep), [sep]) == s
  {
    if s != [] {
      var rest := Split(s[1..], sep);
      JoinSplit(s[1..], sep);
      if s[0] == sep {
        assert Split(s, sep) == [[]] + rest;
        JoinFront([[]] + rest, [sep]);
        assert ([[]] + rest)[1..] == rest;
      } else {
        JoinHead([s[0]], rest, [sep]);
      }
    }
  }

  lemma JoinHead(x: string, ws: seq<string>, sep: string)
    requires ws != []
    ensures Join([x + ws[0]] + ws[1..], sep) == x + Join(ws, sep)
  {
    var v := [x + ws[0]] + ws[1..];
    if |ws| > 1 {
      assert v[1..] == ws[1..];
      JoinFront(v, sep);
      JoinFront(ws, sep);
    }
  }

  // ---------------------------------------------------------------- case, search

  /** `s.lower()` on ASCII letters. */
  function Lower(s: string): (r: string)
    ensures |r| == |s|
  {
    if s == [] then [] else [LowerChar(s[0])] + Lower(s[1..])
  }

  function LowerChar(c: char): char {
    if 'A' <= c <= 'Z' then (c as int + 32) as char else c
  }

  /** Lowering maps each character on its own. */
  lemma {:induction false} LowerAt(s: string)
    ensures forall i :: 0 <= i < |s| ==> Lower(s)[i] == LowerChar(s[i])
    decreases |s|
  {
    if s != [] {
      LowerAt(s[1..]);
    }
  }

  /** Lowering is idempotent, so a lowered text and its original cannot be
      told apart after lowering. */
  lemma LowerIdempotent(s: string)
    ensures Lower(Lower(s)) == Lower(s)
  {
    LowerAt(s);
    LowerAt(Lower(s));
  }

  function StartsWith(s: string, prefix: string): bool {
    |prefix| <= |s| && s[..|prefix|] == prefix
  }

  /** `sub` occurs in `s` starting at index `i`. */
  ghost predicate OccursAt(s: string, sub: string, i: int) {
    0 <= i <= |s| - |sub| && s[i..i + |sub|] == sub
  }

  /** `sub in s` */
  function Contains(s: string, sub: string): bool {
    if StartsWith(s, sub) then true
    else if s == [] then false
    else Contains(s[1..], sub)
  }

  /** `sub in s` holds exactly when `sub` occurs at some index of `s`. */
  lemma {:induction false} ContainsOccurs(s: string, sub: string)
    ensures Contains(s, sub) <==> exists i :: OccursAt(s, sub, i)
    decreases |s|
  {
    if StartsWith(s, sub) {
      assert OccursAt(s, sub, 0);
    } else if s == [] {
      assert forall i :: OccursAt(s, sub, i) ==> i == 0;
    } else {
      ContainsOccurs(s[1..], sub);
      if Contains(s[1..], sub) {
        var i :| OccursAt(s[1..], sub, i);
        assert s[i + 1..i + 1 + |sub|] == s[1..][i..i + |sub|];
        assert OccursAt(s, sub, i + 1);
      } else {
        assert forall i :: OccursAt(s, sub, i) ==> i == 0 || OccursAt(s[1..], sub, i - 1);
      }
    }
  }

  // ---------------------------------------------------------------- numbers

  /** `str(n)` for an integer. */
  function IntToString(n: int): string
  {
    if n < 0 then "-" + NatToString(-n) else NatToString(n)
  }

  function NatToString(n: nat): string
    decreases n
  {
    if n < 10 then [DigitChar(n)] else NatToString(n / 10) + [DigitChar(n % 10)]
  }

  function DigitChar(d: nat): char
    requires d < 10
  {
    ('0' as int + d) as char
  }

  // ---------------------------------------------------------------- slicing

  /** A slice bound as Python reads it for a sequence of length `n`: a
      negative bound counts from the end, and the result is clamped to
      `0..n`. */
  function SliceBound(n: nat, i: int): (b: nat)
    ensures b <= n
    ensures 0 <= i <= n ==> b == i
  {
    if i < 0 then (if n + i < 0 then 0 else n + i)
    else if i <= n then i else n
  }

  /** `s[i:j]`: a window that ends before it starts is empty. */
  function Slice<T>(s: seq<T>, i: int, j: int): seq<T> {
    var lo := SliceBound(|s|, i);
    var hi := SliceBound(|s|, j);
    if hi <= lo then [] else s[lo..hi]
  }

  /** A slice between two non-negative bounds holds at most `j - i` elements. */
  lemma SliceWithin<T>(s: seq<T>, i: int, j: int)
    requires 0 <= i <= j
    ensures |Slice(s, i, j)| <= j - i
  {
  }

  // ---------------------------------------------------------------- comprehensions

  /** `[f(x) for x in xs if keep(x)]` */
  function FilterMap<X, Y>(xs: seq<X>, keep: X -> bool, f: X -> Y): seq<Y>
    decreases |xs|
  {
    if xs == [] then []
    else FilterMap(xs[..|xs| - 1], keep, f) + (if keep(xs[|xs| - 1]) then [f(xs[|xs| - 1])] else [])
  }

  /** One more element extends a filtered map by its image exactly when it is kept. */
  lemma FilterMapSnoc<X, Y>(xs: seq<X>, x: X, keep: X -> bool, f: X -> Y)
    ensures keep(x) ==> FilterMap(xs + [x], keep, f) == FilterMap(xs, keep, f) + [f(x)]
    ensures !keep(x) ==> FilterMap(xs + [x], keep, f) == FilterMap(xs, keep, f)
  {
    assert (xs + [x])[..|xs|] == xs;
  }

  /** The positions of the elements `keep` accepts, in increasing order. */
  function KeptPositions<X>(xs: seq<X>, keep: X -> bool): seq<nat>
    decreases |xs|
  {
    if xs == [] then []
    else KeptPositions(xs[..|xs| - 1], keep) + (if keep(xs[|xs| - 1]) then [|xs| - 1] else [])
  }

  /** Every accepted position is listed. */
  lemma {:induction false} KeptPositionsAll<X>(xs: seq<X>, keep: X -> bool)
    ensures forall p :: 0 <= p < |xs| && keep(xs[p]) ==> p in KeptPositions(xs, keep)
    decreases |xs|
  {
    if xs != [] {
      var init := xs[..|xs| - 1];
      KeptPositionsAll(init, keep);
      forall p | 0 <= p < |xs| && keep(xs[p]) ensures p in KeptPositions(xs, keep) {
        if p < |init| {
          assert init[p] == xs[p];
          assert p in KeptPositions(init, keep);
        }
      }
    }
  }

  /** Element `k` of a filtered map is `f` of the `k`-th accepted element,
      and every accepted element has its place. */
  lemma {:induction false} FilterMapAt<X, Y>(xs: seq<X>, keep: X -> bool, f: X -> Y)
    ensures var pos := KeptPositions(xs, keep);
            var ys := FilterMap(xs, keep, f);
            |pos| == |ys|
            && (forall k :: 0 <= k < |pos| ==> pos[k] < |xs| && keep(xs[pos[k]]) && ys[k] == f(xs[pos[k]]))
            && (forall k, l :: 0 <= k < l < |pos| ==> pos[k] < pos[l])
            && (forall p :: 0 <= p < |xs| && keep(xs[p]) ==> p in pos)
    decreases |xs|
  {
    KeptPositionsAll(xs, keep);
    if xs != [] {
      var init := xs[..|xs| - 1];
      FilterMapAt(init, keep, f);
      var pos0 := KeptPositions(init, keep);
      forall k | 0 <= k < |pos0| ensures init[pos0[k]] == xs[pos0[k]] { }
    }
  }
}
