/**
 * The display-text normaliser of app.py (simplify_lyrics): a text that starts
 * with one of the vocalisation syllables "oh", "la" or "na" (any letter case)
 * becomes a fixed chorus label; any other text is stripped, its whitespace runs
 * are collapsed to single spaces, and it is cut to 37 characters plus "..."
 * when it is longer than 40.
 */
module Lyrics {

  const ChorusOh := "Chorus: Oh (singing)"
  const ChorusLa := "Chorus: La (singing)"
  const ChorusNa := "Chorus: Na (singing)"

  /** Display budget of a cue line, and the length kept when the text is cut. */
  const MaxLength := 40
  const KeptLength := 37
  const Ellipsis := "..."

  // ---------------------------------------------------------------------------
  // Whitespace

  /**
   * Python's str.isspace(), which is what both `\s` in a str pattern and
   * str.strip() without argument treat as whitespace.
   */
  predicate IsSpace(c: char) {
    var n := c as int;
    || 0x09 <= n <= 0x0D || 0x1C <= n <= 0x20
    || n == 0x85 || n == 0xA0 || n == 0x1680
    || 0x2000 <= n <= 0x200A
    || n == 0x2028 || n == 0x2029 || n == 0x202F || n == 0x205F || n == 0x3000
  }

  /** `s` without its leading whitespace. */
  function TrimStart(s: string): (r: string)
    ensures |r| <= |s|
    ensures r == [] || !IsSpace(r[0])
  {
    if s != [] && IsSpace(s[0]) then TrimStart(s[1..]) else s
  }

  /** `s` without its trailing whitespace. */
  function TrimEnd(s: string): (r: string)
    ensures |r| <= |s|
    ensures r == [] || !IsSpace(r[|r| - 1])
  {
    if s != [] && IsSpace(s[|s| - 1]) then TrimEnd(s[..|s| - 1]) else s
  }

  /** Python's `s.strip()`. */
  function Strip(s: string): string {
    TrimEnd(TrimStart(s))
  }

  /** Length of the run of non-whitespace characters that `s` starts with. */
  function WordLength(s: string): (n: nat)
    ensures n <= |s|
    ensures n == |s| || IsSpace(s[n])
  {
    if s == [] || IsSpace(s[0]) then 0 else 1 + WordLength(s[1..])
  }

  /**
   * `re.sub(r'\s+', ' ', s)`: a maximal run of whitespace becomes one space,
   * a maximal run of other characters is copied.
   */
  function Collapse(s: string): string
    decreases |s|
  {
    if s == [] then []
    else if IsSpace(s[0]) then " " + Collapse(TrimStart(s[1..]))
    else var n := WordLength(s); s[..n] + Collapse(s[n..])
  }

  /** The text normalisation of app.py:24. */
  function Normalize(s: string): string {
    Collapse(Strip(s))
  }

  /** The length budget of app.py:25. */
  function Shorten(t: string): string {
    if |t| > MaxLength then t[..KeptLength] + Ellipsis else t
  }

  // ---------------------------------------------------------------------------
  // Reference definitions: words and their single-space join

  predicate IsWord(w: string) {
    |w| > 0 && forall i :: 0 <= i < |w| ==> !IsSpace(w[i])
  }

  /** The maximal runs of non-whitespace characters of `s`, in order (Python's `s.split()`). */
  function Words(s: string): seq<string>
    decreases |s|
  {
    var t := TrimStart(s);
    if t == [] then [] else var n := WordLength(t); [t[..n]] + Words(t[n..])
  }

  /** Python's `" ".join(ws)`. */
  function Join(ws: seq<string>): string {
    if |ws| == 0 then "" else if |ws| == 1 then ws[0] else ws[0] + " " + Join(ws[1..])
  }

  /** A text whose only whitespace characters are single spaces between two other characters. */
  predicate Canonical(t: string) {
    forall i :: 0 <= i < |t| && IsSpace(t[i]) ==> 0 < i < |t| - 1 && t[i] == ' ' && !IsSpace(t[i + 1])
  }

  // ---------------------------------------------------------------------------
  // The operation

  /** The case-insensitive `re.match` of a two-letter literal: `s` begins with those two letters. */
  predicate StartsWithSyllable(s: string, first: char, second: char) {
    |s| >= 2 && AsciiLower(s[0]) == first && AsciiLower(s[1]) == second
  }

  function AsciiLower(c: char): char {
    if 'A' <= c <= 'Z' then (c as int + 32) as char else c
  }

  /**
   * simplify_lyrics (app.py:14-25). The patterns `Oh(\s+Oh)*`, `La(\s+La)*`
   * and `Na(\s+Na)*` are tried in that order with `re.match` and IGNORECASE;
   * since the repetition may match zero times, each succeeds exactly when the
   * text begins with the syllable.
   */
  function Simplify(text: string): (r: string)
    ensures |r| <= MaxLength
  {
    if StartsWithSyllable(text, 'o', 'h') then ChorusOh
    else if StartsWithSyllable(text, 'l', 'a') then ChorusLa
    else if StartsWithSyllable(text, 'n', 'a') then ChorusNa
    else Shorten(Normalize(text))
  }


  // ---------------------------------------------------------------------------
  // What the trimming and splitting helpers skip

  /** TrimStart keeps a suffix of its argument. */
  lemma {:induction false} TrimStartIsSuffix(s: string)
    ensures TrimStart(s) == s[|s| - |TrimStart(s)|..]
  {
    if s != [] && IsSpace(s[0]) {
      TrimStartIsSuffix(s[1..]);
    }
  }

  /** TrimEnd keeps a prefix of its argument. */
  lemma {:induction false} TrimEndIsPrefix(s: string)
    ensures TrimEnd(s) == s[..|TrimEnd(s)|]
  {
    if s != [] && IsSpace(s[|s| - 1]) {
      TrimEndIsPrefix(s[..|s| - 1]);
    }
  }

  /** TrimStart removes only whitespace. */
  lemma {:induction false} TrimStartSkipsSpaces(s: string)
    ensures forall i :: 0 <= i < |s| - |TrimStart(s)| ==> IsSpace(s[i])
  {
    if s != [] && IsSpace(s[0]) {
      TrimStartSkipsSpaces(s[1..]);
    }
  }

  /** TrimEnd removes only whitespace. */
  lemma {:induction false} TrimEndSkipsSpaces(s: string)
    ensures forall i :: |TrimEnd(s)| <= i < |s| ==> IsSpace(s[i])
  {
    if s != [] && IsSpace(s[|s| - 1]) {
      TrimEndSkipsSpaces(s[..|s| - 1]);
    }
  }

  /** The run WordLength measures holds no whitespace. */
  lemma {:induction false} WordLengthNoSpace(s: string)
    ensures forall i :: 0 <= i < WordLength(s) ==> !IsSpace(s[i])
  {
    if s != [] && !IsSpace(s[0]) {
      WordLengthNoSpace(s[1..]);
    }
  }

  /** Every element of Words(s) is a non-empty run without whitespace. */
  lemma {:induction false} WordsAreWords(s: string)
    ensures forall k :: 0 <= k < |Words(s)| ==> IsWord(Words(s)[k])
    decreases |s|
  {
    var t := TrimStart(s);
    if t != [] {
      var n := WordLength(t);
      WordLengthNoSpace(t);
      WordsAreWords(t[n..]);
    }
  }

  /** WordLength is determined by its contract. */
  lemma WordLengthUnique(s: string, m: nat)
    requires m <= |s|
    requires forall i :: 0 <= i < m ==> !IsSpace(s[i])
    requires m == |s| || IsSpace(s[m])
    ensures WordLength(s) == m
  {
    WordLengthNoSpace(s);
  }

  lemma {:induction false} TrimStartAllSpaces(s: string)
    requires forall i :: 0 <= i < |s| ==> IsSpace(s[i])
    ensures TrimStart(s) == []
  {
    if s != [] {
      TrimStartAllSpaces(s[1..]);
    }
  }

  lemma {:induction false} TrimStartAppend(u: string, v: string)
    requires TrimStart(u) != []
    ensures TrimStart(u + v) == TrimStart(u) + v
    decreases |u|
  {
    if IsSpace(u[0]) {
      assert (u + v)[1..] == u[1..] + v;
      TrimStartAppend(u[1..], v);
    }
  }

  // ---------------------------------------------------------------------------
  // Properties of simplify_lyrics

  /** The result is empty exactly when the stripped text is empty. */
  lemma SimplifyEmptyIff(text: string)
    ensures Simplify(text) == "" <==> Strip(text) == ""
  {
    if |text| >= 2 && !IsSpace(text[0]) {
      assert TrimStart(text) == text;
      TrimEndSkipsSpaces(text);
    }
  }

  /** A text beginning with "oh" in any letter case is the Oh label, whatever follows. */
  lemma ChorusOhWhateverFollows(o: char, h: char, rest: string)
    requires AsciiLower(o) == 'o' && AsciiLower(h) == 'h'
    ensures Simplify([o, h] + rest) == ChorusOh
  {
  }

  /** A text beginning with "la" in any letter case is the La label, whatever follows. */
  lemma ChorusLaWhateverFollows(l: char, a: char, rest: string)
    requires AsciiLower(l) == 'l' && AsciiLower(a) == 'a'
    ensures Simplify([l, a] + rest) == ChorusLa
  {
  }

  /** A text beginning with "na" in any letter case is the Na label, whatever follows. */
  lemma ChorusNaWhateverFollows(n: char, a: char, rest: string)
    requires AsciiLower(n) == 'n' && AsciiLower(a) == 'a'
    ensures Simplify([n, a] + rest) == ChorusNa
  {
  }

  /** The prefix test has no word boundary: ordinary words that start with a syllable become labels. */
  lemma ChorusWithoutWordBoundary()
    ensures Simplify("Ohio") == ChorusOh
    ensures Simplify("Lately") == ChorusLa
    ensures Simplify("NANCY") == ChorusNa
  {
    assert "Ohio" == ['O', 'h'] + "io";
    ChorusOhWhateverFollows('O', 'h', "io");
    assert "Lately" == ['L', 'a'] + "tely";
    ChorusLaWhateverFollows('L', 'a', "tely");
    assert "NANCY" == ['N', 'A'] + "NCY";
    ChorusNaWhateverFollows('N', 'A', "NCY");
  }

  // ---------------------------------------------------------------------------
  // The plain-text branch against the reference definitions

  /** Leading whitespace does not change the words. */
  lemma WordsTrimStart(s: string)
    ensures Words(TrimStart(s)) == Words(s)
  {
    assert TrimStart(TrimStart(s)) == TrimStart(s);
  }

  /** Trailing whitespace does not change the words. */
  lemma {:induction false} WordsAppendSpaces(u: string, v: string)
    requires forall i :: 0 <= i < |v| ==> IsSpace(v[i])
    ensures Words(u + v) == Words(u)
    decreases |u|
  {
    var t := TrimStart(u);
    if t == [] {
      AllSpacesAppend(u, v);
    } else {
      var n := WordLength(t);
      FirstWordAppendSpaces(u, v);
      assert (t + v)[..n] == t[..n];
      assert (t + v)[n..] == t[n..] + v;
      WordsAppendSpaces(t[n..], v);
    }
  }

  lemma AllSpacesAppend(u: string, v: string)
    requires forall i :: 0 <= i < |v| ==> IsSpace(v[i])
    requires TrimStart(u) == []
    ensures TrimStart(u + v) == []
  {
    TrimStartSkipsSpaces(u);
    assert forall i :: 0 <= i < |u + v| ==> IsSpace((u + v)[i]);
    TrimStartAllSpaces(u + v);
  }

  lemma FirstWordAppendSpaces(u: string, v: string)
    requires forall i :: 0 <= i < |v| ==> IsSpace(v[i])
    requires TrimStart(u) != []
    ensures TrimStart(u + v) == TrimStart(u) + v
    ensures WordLength(TrimStart(u) + v) == WordLength(TrimStart(u))
  {
    var t := TrimStart(u);
    TrimStartAppend(u, v);
    WordLengthNoSpace(t);
    WordLengthUnique(t + v, WordLength(t));
  }

  /** On a text without outer whitespace, collapsing the runs joins the words by single spaces. */
  lemma {:induction false} CollapseTrimmed(s: string)
    requires s == [] || (!IsSpace(s[0]) && !IsSpace(s[|s| - 1]))
    ensures Collapse(s) == Join(Words(s))
    decreases |s|
  {
    if s != [] {
      var n := WordLength(s);
      var w, rest := s[..n], s[n..];
      FirstWordSplit(s);
      if rest == [] {
        assert Join([w]) == w;
      } else {
        var r2 := TrimStart(rest);
        InnerRest(s, n);
        CollapseTrimmed(r2);
        WordsTrimStart(rest);
        assert TrimStart(r2) == r2;
        assert Words(r2) != [];
        JoinCons(w, Words(rest));
      }
    }
  }

  /** A text that starts with a non-whitespace character splits into its first word and the rest. */
  lemma FirstWordSplit(s: string)
    requires s != [] && !IsSpace(s[0])
    ensures var n := WordLength(s);
      && Words(s) == [s[..n]] + Words(s[n..])
      && Collapse(s) == s[..n] + Collapse(s[n..])
      && (n == |s| ==> Words(s[n..]) == [] && Collapse(s[n..]) == [])
  {
    assert TrimStart(s) == s;
  }

  lemma JoinCons(w: string, ws: seq<string>)
    requires ws != []
    ensures Join([w] + ws) == w + " " + Join(ws)
  {
    assert ([w] + ws)[1..] == ws;
  }

  /** What follows the first word of a text without outer whitespace, less its leading whitespace, has none at either end. */
  lemma InnerRest(s: string, n: nat)
    requires s != [] && !IsSpace(s[|s| - 1])
    requires n == WordLength(s) < |s|
    ensures var r := TrimStart(s[n..]);
      && r != [] && !IsSpace(r[0]) && !IsSpace(r[|r| - 1]) && |r| < |s|
      && Collapse(s[n..]) == " " + Collapse(r)
  {
    var rest := s[n..];
    var r := TrimStart(rest);
    TrimStartSkipsSpaces(rest);
    assert !IsSpace(rest[|rest| - 1]);
    TrimStartIsSuffix(rest);
    assert r[|r| - 1] == rest[|rest| - 1];
  }

  /** Normalising a text gives its words joined by single spaces. */
  lemma NormalizeIsJoinedWords(s: string)
    ensures Normalize(s) == Join(Words(s))
  {
    var t := TrimStart(s);
    var e := TrimEnd(t);
    WordsTrimStart(s);
    TrimEndIsPrefix(t);
    assert t == e + t[|e|..];
    TrimEndSkipsSpaces(t);
    WordsAppendSpaces(e, t[|e|..]);
    CollapseTrimmed(e);
  }

  /**
   * A text that does not begin with a syllable becomes its words joined by
   * single spaces, or, when that join is longer than 40 characters, its first
   * 37 characters followed by "..." (40 characters in all).
   */
  lemma SimplifyPlainText(text: string)
    requires !StartsWithSyllable(text, 'o', 'h') && !StartsWithSyllable(text, 'l', 'a')
    requires !StartsWithSyllable(text, 'n', 'a')
    ensures var j := Join(Words(text));
      && (|j| <= MaxLength ==> Simplify(text) == j)
      && (|j| > MaxLength ==> Simplify(text) == j[..KeptLength] + Ellipsis && |Simplify(text)| == MaxLength)
  {
    NormalizeIsJoinedWords(text);
  }

  // ---------------------------------------------------------------------------
  // Canonical texts and idempotence

  /** Words joined by single spaces form a canonical text that starts with the first word. */
  lemma {:induction false} JoinCanonical(ws: seq<string>)
    requires forall k :: 0 <= k < |ws| ==> IsWord(ws[k])
    ensures Canonical(Join(ws))
    ensures ws != [] ==> |Join(ws)| >= |ws[0]| && Join(ws)[..|ws[0]|] == ws[0]
    ensures |ws| > 1 ==> Join(ws)[|ws[0]|] == ' '
  {
    if |ws| > 1 {
      JoinCanonical(ws[1..]);
      var w, j := ws[0], Join(ws[1..]);
      var t := w + " " + j;
      assert j[..|ws[1]|] == ws[1];
      forall i | 0 <= i < |t| && IsSpace(t[i])
        ensures 0 < i < |t| - 1 && t[i] == ' ' && !IsSpace(t[i + 1])
      {
        if i >= |w| {
          SpaceAfterWord(w, j, i);
        }
      }
      assert t[..|w|] == w;
    }
  }

  lemma SpaceAfterWord(w: string, j: string, i: nat)
    requires IsWord(w) && Canonical(j) && j != [] && !IsSpace(j[0])
    requires |w| <= i < |w| + 1 + |j| && IsSpace((w + " " + j)[i])
    ensures var t := w + " " + j; i < |t| - 1 && t[i] == ' ' && !IsSpace(t[i + 1])
  {
    var t := w + " " + j;
    if i > |w| {
      assert t[i] == j[i - |w| - 1];
      assert i + 1 < |t| ==> t[i + 1] == j[i - |w|];
    }
  }

  /** A normalised text is canonical. */
  lemma NormalizeCanonical(s: string)
    ensures Canonical(Normalize(s))
  {
    NormalizeIsJoinedWords(s);
    WordsAreWords(s);
    JoinCanonical(Words(s));
  }

  /** Cutting a canonical text to 37 characters and appending "..." keeps it canonical. */
  lemma ShortenCanonical(t: string)
    requires Canonical(t)
    ensures Canonical(Shorten(t))
  {
    if |t| > MaxLength {
      var r := Shorten(t);
      forall i | 0 <= i < |r| && IsSpace(r[i])
        ensures 0 < i < |r| - 1 && r[i] == ' ' && !IsSpace(r[i + 1])
      {
        assert i < KeptLength && r[i] == t[i];
        if i + 1 < KeptLength {
          assert r[i + 1] == t[i + 1];
        }
      }
    }
  }

  /** Normalising a canonical text changes nothing. */
  lemma CanonicalFixed(t: string)
    requires Canonical(t)
    ensures Normalize(t) == t
  {
    assert TrimStart(t) == t;
    assert TrimEnd(t) == t;
    CollapseCanonical(t);
  }

  lemma {:induction false} CollapseCanonical(t: string)
    requires Canonical(t)
    ensures Collapse(t) == t
    decreases |t|
  {
    if t != [] && WordLength(t) < |t| {
      var n := WordLength(t);
      var rest := t[n + 1..];
      CanonicalStep(t);
      CollapseCanonical(rest);
    }
  }

  /** A canonical text with a space after its first word: that word, the space, and a canonical rest. */
  lemma CanonicalStep(t: string)
    requires Canonical(t) && t != [] && WordLength(t) < |t|
    ensures var n := WordLength(t); var rest := t[n + 1..];
      && Canonical(rest)
      && t == t[..n] + " " + rest
      && Collapse(t) == t[..n] + " " + Collapse(rest)
  {
    var n := WordLength(t);
    var rest := t[n + 1..];
    assert t[n] == ' ' && !IsSpace(t[n + 1]);
    CanonicalSuffix(t, n + 1);
    CollapseAfterWord(t, n);
    assert t == t[..n] + " " + rest;
  }

  lemma CollapseAfterWord(t: string, n: nat)
    requires t != [] && !IsSpace(t[0]) && n == WordLength(t) < |t| - 1 && !IsSpace(t[n + 1])
    ensures Collapse(t) == t[..n] + " " + Collapse(t[n + 1..])
  {
    var rest, u := t[n + 1..], t[n..];
    assert Collapse(t) == t[..n] + Collapse(u);
    assert u != [] && IsSpace(u[0]) && u[1..] == rest;
    assert Collapse(u) == " " + Collapse(TrimStart(rest));
    assert TrimStart(rest) == rest;
  }

  lemma CanonicalSuffix(t: string, k: nat)
    requires Canonical(t) && k <= |t| && (k == |t| || !IsSpace(t[k]))
    ensures Canonical(t[k..])
  {
    var r := t[k..];
    forall i | 0 <= i < |r| && IsSpace(r[i])
      ensures 0 < i < |r| - 1 && r[i] == ' ' && !IsSpace(r[i + 1])
    {
      assert r[i] == t[k + i];
      assert i + 1 < |r| ==> r[i + 1] == t[k + i + 1];
    }
  }

  /** A text without leading whitespace normalises to its first word, then a space or nothing. */
  lemma NormalizeKeepsFirstWord(x: string)
    requires x != [] && !IsSpace(x[0])
    ensures var n, r := WordLength(x), Normalize(x);
      && 1 <= n <= |r| && r[..n] == x[..n]
      && (|r| > n ==> r[n] == ' ')
  {
    NormalizeIsJoinedWords(x);
    WordsAreWords(x);
    var n := WordLength(x);
    FirstWordSplit(x);
    var ws := Words(x);
    JoinCanonical(ws);
    if |ws| == 1 {
      assert Join(ws) == x[..n];
    }
  }

  /**
   * Simplifying twice equals simplifying once, for any text without leading
   * whitespace; app.py:44 strips the text before simplifying, so every call
   * site meets this.
   */
  lemma SimplifyIdempotent(x: string)
    requires x == [] || !IsSpace(x[0])
    ensures Simplify(Simplify(x)) == Simplify(x)
  {
    if StartsWithSyllable(x, 'o', 'h') || StartsWithSyllable(x, 'l', 'a') || StartsWithSyllable(x, 'n', 'a') {
      LabelFixed(Simplify(x));
    } else {
      PlainSimplifyFixed(x);
    }
  }

  /** The plain-text result is canonical, at most 40 characters long, and begins as the text does, so with no syllable. */
  lemma PlainSimplifyFixed(x: string)
    requires x == [] || !IsSpace(x[0])
    requires !StartsWithSyllable(x, 'o', 'h') && !StartsWithSyllable(x, 'l', 'a') && !StartsWithSyllable(x, 'n', 'a')
    ensures Simplify(Simplify(x)) == Simplify(x)
  {
    var r := Simplify(x);
    var nx := Normalize(x);
    assert r == Shorten(nx);
    NormalizeCanonical(x);
    ShortenCanonical(nx);
    if x != [] {
      PlainPrefix(x);
    }
    CanonicalSimplifyFixed(r);
  }

  /** The plain-text result begins with the text's first character, then its second or a space. */
  lemma PlainPrefix(x: string)
    requires x != [] && !IsSpace(x[0])
    ensures var r := Shorten(Normalize(x));
      && r != [] && r[0] == x[0]
      && (|r| >= 2 ==> r[1] == ' ' || (|x| >= 2 && r[1] == x[1]))
  {
    NormalizeKeepsFirstWord(x);
    var nx := Normalize(x);
    var n := WordLength(x);
    assert nx[0] == x[0];
    if |nx| >= 2 && n >= 2 {
      assert nx[1] == x[1];
    }
  }

  /** Each chorus label simplifies to itself. */
  lemma LabelFixed(r: string)
    requires r == ChorusOh || r == ChorusLa || r == ChorusNa
    ensures Simplify(r) == r
  {
    LabelCanonical(r);
    assert !StartsWithSyllable(r, 'o', 'h') && !StartsWithSyllable(r, 'l', 'a') && !StartsWithSyllable(r, 'n', 'a');
    CanonicalSimplifyFixed(r);
  }

  /** A canonical text of at most 40 characters that begins with no syllable simplifies to itself. */
  lemma CanonicalSimplifyFixed(t: string)
    requires Canonical(t) && |t| <= MaxLength
    requires !StartsWithSyllable(t, 'o', 'h') && !StartsWithSyllable(t, 'l', 'a') && !StartsWithSyllable(t, 'n', 'a')
    ensures Simplify(t) == t
  {
    CanonicalFixed(t);
  }

  lemma LabelCanonical(r: string)
    requires r == ChorusOh || r == ChorusLa || r == ChorusNa
    ensures Canonical(r)
  {
    var x := r[8..10];
    assert r == "Chorus:" + " " + (x + " " + "(singing)");
    LabelWords(r);
    LabelShapeCanonical(x);
  }

  lemma LabelShapeCanonical(x: string)
    requires IsWord("Chorus:") && IsWord(x) && IsWord("(singing)")
    ensures Canonical("Chorus:" + " " + (x + " " + "(singing)"))
  {
    var ws := ["Chorus:", x, "(singing)"];
    assert ws[1..][1..] == ["(singing)"];
    assert Join(ws[1..]) == x + " " + "(singing)";
    JoinCanonical(ws);
  }

  lemma LabelWords(r: string)
    requires r == ChorusOh || r == ChorusLa || r == ChorusNa
    ensures IsWord("Chorus:") && IsWord(r[8..10]) && IsWord("(singing)")
  {
  }

  /** Leading whitespace matters: " oh" simplifies to "oh", which simplifies to the Oh label. */
  lemma SimplifyNotIdempotentWithLeadingSpace()
    ensures Simplify(" oh") == "oh"
    ensures Simplify(Simplify(" oh")) == ChorusOh
  {
    LeadingSpaceSimplify(' ', "oh");
  }

  /** A leading space hides a chorus syllable from the prefix test, while the stripping step removes the space. */
  lemma LeadingSpaceSimplify(c: char, w: string)
    requires IsSpace(c) && IsWord(w) && |w| <= MaxLength
    ensures Simplify([c] + w) == w
  {
    var x := [c] + w;
    assert TrimStart(x) == TrimStart(x[1..]) == w;
    assert TrimEnd(w) == w;
    assert Canonical(w);
    CollapseCanonical(w);
  }
}
