/** `clean_response_text` (app.py:28-40): the display sanitizer applied to
    every reply before it is shown. It collapses whitespace runs, drops every
    character outside an allow-list, pads the markdown bold marker `**` with
    spaces, and strips the ends. */
module Sanitizer {
  import opened Strings

  /** What the cleaner receives: a Python `str`, or any other object, which
      is given here by its `str()` form. */
  datatype Text = Str(s: string) | Other(shown: string)

  predicate IsAsciiAlnum(c: char) {
    'a' <= c <= 'z' || 'A' <= c <= 'Z' || '0' <= c <= '9'
  }

  /** The punctuation kept by the character class at app.py:36:
      `. , ! ? $ : ( ) - + * / \`. */
  predicate IsPunctuation(c: char) {
    c == '.' || c == ',' || c == '!' || c == '?' || c == '$' || c == ':' ||
    c == '(' || c == ')' || c == '-' || c == '+' || c == '*' || c == '/' || c == '\\'
  }

  /** Characters the filter at app.py:36 keeps. */
  predicate Allowed(c: char) {
    IsAsciiAlnum(c) || IsSpace(c) || IsPunctuation(c)
  }

  /** Characters a cleaned string may hold: the allow-list with the plain
      space as its only whitespace. */
  predicate Displayable(c: char) {
    IsAsciiAlnum(c) || c == ' ' || IsPunctuation(c)
  }

  predicate AllDisplayable(s: string) {
    forall k :: 0 <= k < |s| ==> Displayable(s[k])
  }

  /** Every whitespace character of `s` is the plain space. */
  predicate OnlyPlainSpaces(s: string) {
    forall k :: 0 <= k < |s| ==> s[k] == ' ' || !IsSpace(s[k])
  }

  predicate NoSpaceIn(w: string) {
    forall k :: 0 <= k < |w| ==> !IsSpace(w[k])
  }

  /** The characters of `s` that survive cleaning as visible text: allowed
      and not whitespace, in order. */
  function Visible(s: string): (r: string)
    decreases |s|
  {
    if s == [] then []
    else (if Allowed(s[0]) && !IsSpace(s[0]) then [s[0]] else []) + Visible(s[1..])
  }

  /** Length of the leading run of non-whitespace characters. */
  function WordLength(s: string): (n: nat)
    ensures n <= |s|
    ensures forall k :: 0 <= k < n ==> !IsSpace(s[k])
    ensures n < |s| ==> IsSpace(s[n])
    decreases |s|
  {
    if s == [] || IsSpace(s[0]) then 0 else 1 + WordLength(s[1..])
  }

  /** `str.split()` without arguments: the maximal runs of non-whitespace. */
  function Words(s: string): (ws: seq<string>)
    ensures forall k :: 0 <= k < |ws| ==> ws[k] != [] && NoSpaceIn(ws[k])
    decreases |s|
  {
    if s == [] then []
    else if IsSpace(s[0]) then Words(s[1..])
    else
      var n := WordLength(s);
      [s[..n]] + Words(s[n..])
  }

  /** `' '.join(ws)`. */
  function JoinWords(ws: seq<string>): string
    decreases |ws|
  {
    if ws == [] then []
    else if |ws| == 1 then ws[0]
    else ws[0] + " " + JoinWords(ws[1..])
  }

  /** The concatenation of a list of strings. */
  function Concat(ws: seq<string>): string
    decreases |ws|
  {
    if ws == [] then [] else ws[0] + Concat(ws[1..])
  }

  /** `' '.join(text.split())` (app.py:33): the non-whitespace characters
      of the input, with plain spaces as the only whitespace and none at
      either end. `CollapseKeepsWords` shows that the words are the input's,
      separated by single spaces. */
  function Collapse(s: string): (r: string)
    ensures NonSpace(r) == NonSpace(s)
    ensures OnlyPlainSpaces(r)
    ensures r == [] || (!IsSpace(r[0]) && !IsSpace(r[|r| - 1]))
  {
    JoinWordsShape(Words(s));
    NonSpaceOfJoin(Words(s));
    ConcatWords(s);
    JoinWords(Words(s))
  }

  /** Collapsing keeps the words of the input and leaves no two whitespace
      characters side by side. */
  lemma CollapseKeepsWords(s: string)
    ensures Words(Collapse(s)) == Words(s)
    ensures forall k :: 0 < k < |Collapse(s)| ==> !IsSpace(Collapse(s)[k - 1]) || !IsSpace(Collapse(s)[k])
  {
    JoinWordsShape(Words(s));
    WordsOfJoin(Words(s));
  }

  /** The regex substitution at app.py:36: delete every character outside
      the allow-list. The visible characters of the input are exactly the
      non-whitespace characters left; `KeepAllowedKeepsAllowed` shows that
      text made of allowed characters only is unchanged. */
  function KeepAllowed(s: string): (r: string)
    ensures forall k :: 0 <= k < |r| ==> Allowed(r[k])
    ensures NonSpace(r) == Visible(s)
    ensures OnlyPlainSpaces(s) ==> OnlyPlainSpaces(r)
    decreases |s|
  {
    if s == [] then []
    else
      var head := if Allowed(s[0]) then [s[0]] else [];
      var rest := KeepAllowed(s[1..]);
      KeepAllowedStep(s, head, rest);
      head + rest
  }

  /** One step of the filter keeps its three promises. */
  lemma KeepAllowedStep(s: string, head: string, rest: string)
    requires s != [] && head == if Allowed(s[0]) then [s[0]] else []
    requires forall k :: 0 <= k < |rest| ==> Allowed(rest[k])
    requires NonSpace(rest) == Visible(s[1..])
    requires OnlyPlainSpaces(s[1..]) ==> OnlyPlainSpaces(rest)
    ensures forall k :: 0 <= k < |head + rest| ==> Allowed((head + rest)[k])
    ensures NonSpace(head + rest) == Visible(s)
    ensures OnlyPlainSpaces(s) ==> OnlyPlainSpaces(head + rest)
  {
    AllowedStep(s, head, rest);
    VisibleStep(s, head, rest);
    if OnlyPlainSpaces(s) {
      PlainTail(s);
      PlainStep(s, head, rest);
    }
  }

  lemma AllowedStep(s: string, head: string, rest: string)
    requires s != [] && head == if Allowed(s[0]) then [s[0]] else []
    requires forall k :: 0 <= k < |rest| ==> Allowed(rest[k])
    ensures forall k :: 0 <= k < |head + rest| ==> Allowed((head + rest)[k])
  {
    var r := head + rest;
    forall k | 0 <= k < |r|
      ensures Allowed(r[k])
    {
      if k >= |head| {
        assert r[k] == rest[k - |head|];
      }
    }
  }

  lemma VisibleStep(s: string, head: string, rest: string)
    requires s != [] && head == if Allowed(s[0]) then [s[0]] else []
    requires NonSpace(rest) == Visible(s[1..])
    ensures NonSpace(head + rest) == Visible(s)
  {
    NonSpaceAppend(head, rest);
    assert NonSpace(head) == if Allowed(s[0]) && !IsSpace(s[0]) then [s[0]] else [];
  }

  lemma PlainStep(s: string, head: string, rest: string)
    requires s != [] && head == if Allowed(s[0]) then [s[0]] else []
    requires OnlyPlainSpaces(s) && OnlyPlainSpaces(rest)
    ensures OnlyPlainSpaces(head + rest)
  {
    var r := head + rest;
    forall k | 0 <= k < |r|
      ensures r[k] == ' ' || !IsSpace(r[k])
    {
      if k >= |head| {
        assert r[k] == rest[k - |head|];
      }
    }
  }

  lemma PlainTail(s: string)
    requires s != [] && OnlyPlainSpaces(s)
    ensures OnlyPlainSpaces(s[1..])
  {
    forall k | 0 <= k < |s[1..]|
      ensures s[1..][k] == ' ' || !IsSpace(s[1..][k])
    {
      assert s[1..][k] == s[k + 1];
    }
  }

  /** The filter keeps every allowed character, in order: text made of
      allowed characters only comes back unchanged. */
  lemma {:induction false} KeepAllowedKeepsAllowed(s: string)
    requires forall k :: 0 <= k < |s| ==> Allowed(s[k])
    ensures KeepAllowed(s) == s
    decreases |s|
  {
    if s != [] {
      KeepAllowedKeepsAllowed(s[1..]);
      assert s == [s[0]] + s[1..];
    }
  }

  /** Whether `s` holds the bold marker `**` at position `i`. */
  predicate BoldAt(s: string, i: nat) {
    i + 1 < |s| && s[i] == '*' && s[i + 1] == '*'
  }

  /** `re.sub(r'(?<!\s)(\*\*)', r' \1', s)` (app.py:38), scanning from `i`:
      a marker not preceded by whitespace (or at the start) gets a space in
      front; the scan resumes after each replaced marker. */
  function SpaceBeforeBold(s: string, i: nat): (r: string)
    requires i <= |s|
    ensures AllDisplayable(s) ==> AllDisplayable(r)
    decreases |s| - i
  {
    if i == |s| then []
    else if BoldAt(s, i) && (i == 0 || !IsSpace(s[i - 1])) then " **" + SpaceBeforeBold(s, i + 2)
    else [s[i]] + SpaceBeforeBold(s, i + 1)
  }

  /** `re.sub(r'(\*\*)(?!\s)', r'\1 ', s)` (app.py:39), scanning from `i`:
      a marker not followed by whitespace (or at the end) gets a space after
      it. */
  function SpaceAfterBold(s: string, i: nat): (r: string)
    requires i <= |s|
    ensures AllDisplayable(s) ==> AllDisplayable(r)
    decreases |s| - i
  {
    if i == |s| then []
    else if BoldAt(s, i) && (i + 2 == |s| || !IsSpace(s[i + 2])) then "** " + SpaceAfterBold(s, i + 2)
    else [s[i]] + SpaceAfterBold(s, i + 1)
  }

  /** The cleaning pipeline of app.py:33-39, before the final strip. */
  function Padded(s: string): (r: string)
    ensures AllDisplayable(r)
    ensures NonSpace(r) == Visible(s)
  {
    CleanKeepsVisible(s);
    SpaceAfterBold(SpaceBeforeBold(KeepAllowed(Collapse(s)), 0), 0)
  }

  /** The cleaning pipeline of app.py:33-40 on a `str`. */
  function CleanString(s: string): (r: string)
    ensures AllDisplayable(r)
    ensures r == [] || (!IsSpace(r[0]) && !IsSpace(r[|r| - 1]))
    ensures NonSpace(r) == Visible(s)
  {
    var padded := Padded(s);
    StripKeepsDisplayable(padded);
    var r := Strip(padded);
    assert NonSpace(r) == Visible(s);
    r
  }

  /** `clean_response_text` (app.py:28-40). A non-string comes back as its
      `str()` form, uncleaned; a string comes back with only letters, digits,
      plain spaces and the allowed punctuation, no space at either end, and
      exactly the allowed non-whitespace characters of the input, in order:
      cleaning only deletes characters and inserts spaces. */
  function CleanResponseText(t: Text): (r: string)
    ensures t.Other? ==> r == t.shown
    ensures t.Str? ==> AllDisplayable(r)
    ensures t.Str? ==> r == [] || (!IsSpace(r[0]) && !IsSpace(r[|r| - 1]))
    ensures t.Str? ==> NonSpace(r) == Visible(t.s)
  {
    match t
    case Other(shown) => shown
    case Str(s) =>
      var r := CleanString(s);
      assert NonSpace(r) == Visible(s);
      r
  }

  /** Text made of allowed characters only, with no `*`. */
  predicate PlainText(s: string) {
    forall k :: 0 <= k < |s| ==> Allowed(s[k]) && s[k] != '*'
  }

  /** On plain text cleaning is exactly the whitespace normalisation: the
      words are kept, separated by single spaces. */
  lemma CleanPlainText(s: string)
    requires PlainText(s)
    ensures CleanString(s) == Collapse(s)
  {
    var c := Collapse(s);
    CollapseIsPlain(s);
    KeepAllowedKeepsAllowed(c);
    NoStarUnchanged(c);
    StripTrimmed(c);
  }

  /** Collapsing plain text gives plain text: every non-whitespace
      character of the result comes from the input. */
  lemma CollapseIsPlain(s: string)
    requires PlainText(s)
    ensures PlainText(Collapse(s))
  {
    var c := Collapse(s);
    forall k | 0 <= k < |c|
      ensures Allowed(c[k]) && c[k] != '*'
    {
      if !IsSpace(c[k]) {
        NonSpaceMember(c, k);
        NonSpaceChars(s, c[k]);
      }
    }
  }

  /** A non-whitespace character shows up in `NonSpace`. */
  lemma {:induction false} NonSpaceMember(x: string, k: nat)
    requires k < |x| && !IsSpace(x[k])
    ensures x[k] in NonSpace(x)
    decreases k
  {
    if k > 0 {
      NonSpaceMember(x[1..], k - 1);
      assert x[1..][k - 1] == x[k];
    }
  }

  /** Every character of `NonSpace(x)` is one of `x`'s. */
  lemma {:induction false} NonSpaceChars(x: string, c: char)
    requires c in NonSpace(x)
    ensures exists k :: 0 <= k < |x| && x[k] == c
    decreases |x|
  {
    if x[0] != c {
      NonSpaceChars(x[1..], c);
      var k :| 0 <= k < |x[1..]| && x[1..][k] == c;
      assert x[k + 1] == c;
    }
  }

  /** Whitespace never survives cleaning except as the plain space. */
  lemma CleanedSpacesArePlain(s: string)
    ensures var r := CleanResponseText(Str(s));
            forall k :: 0 <= k < |r| ==> !IsSpace(r[k]) || r[k] == ' '
  {
    DisplayableIsPlain(CleanString(s));
  }

  lemma DisplayableIsPlain(r: string)
    requires AllDisplayable(r)
    ensures OnlyPlainSpaces(r)
  {
    forall k | 0 <= k < |r|
      ensures r[k] == ' ' || !IsSpace(r[k])
    {
      assert Displayable(r[k]);
    }
  }

  /** Cleaning yields the empty string exactly when the input has no visible
      character. */
  lemma CleanedEmptyIff(s: string)
    ensures CleanString(s) == [] <==> Visible(s) == []
  {
    var r := CleanString(s);
    if r != [] {
      assert !IsSpace(r[0]) by { assert Displayable(r[0]) && r[0] != ' '; }
      SplitAt(r, 1);
      NonSpaceAppend(r[..1], r[1..]);
      assert NonSpace(r[..1]) == [r[0]];
    }
  }

  /** Cleaning already-cleaned text removes no further visible character:
      the sanitizer is idempotent up to the placement of spaces. */
  lemma CleanTwiceKeepsVisible(s: string)
    ensures NonSpace(CleanString(CleanString(s))) == NonSpace(CleanString(s))
  {
    VisibleOfDisplayable(CleanString(s));
  }

  /** The sanitizer is not idempotent: a character outside the allow-list
      between two spaces (`"a @ b"`) leaves a double space that a second pass
      collapses. */
  lemma CleanNotIdempotent(x: char)
    requires !Allowed(x)
    ensures CleanString(['a', ' ', x, ' ', 'b']) == "a  b"
    ensures CleanString(CleanString(['a', ' ', x, ' ', 'b'])) == "a b"
  {
    CleanDropsSymbol('a', x, 'b');
    CleanCollapsesDoubleSpace('a', 'b');
  }

  lemma CleanDropsSymbol(a: char, x: char, b: char)
    requires IsAsciiAlnum(a) && IsAsciiAlnum(b) && !Allowed(x)
    ensures CleanString([a, ' ', x, ' ', b]) == [a, ' ', ' ', b]
  {
    var s := [a, ' ', x, ' ', b];
    var kept := [a, ' ', ' ', b];
    CollapseOfThree(a, x, b);
    KeepAllowedDrops(a, x, b);
    NoStarUnchanged(kept);
    StripTrimmed(kept);
  }

  lemma CollapseOfThree(a: char, x: char, b: char)
    requires !IsSpace(a) && !IsSpace(x) && !IsSpace(b)
    ensures Collapse([a, ' ', x, ' ', b]) == [a, ' ', x, ' ', b]
  {
    WordsOfThree(a, x, b, ' ');
    JoinOfThree([a], [x], [b]);
    assert [a] + " " + [x] + " " + [b] == [a, ' ', x, ' ', b];
  }

  lemma KeepAllowedDrops(a: char, x: char, b: char)
    requires IsAsciiAlnum(a) && IsAsciiAlnum(b) && !Allowed(x)
    ensures KeepAllowed([a, ' ', x, ' ', b]) == [a, ' ', ' ', b]
  {
    KeepAllowedCons(b, []);
    KeepAllowedCons(' ', [b]);
    KeepAllowedCons(x, [' ', b]);
    KeepAllowedCons(' ', [x, ' ', b]);
    KeepAllowedCons(a, [' ', x, ' ', b]);
  }

  lemma CleanCollapsesDoubleSpace(a: char, b: char)
    requires IsAsciiAlnum(a) && IsAsciiAlnum(b)
    ensures CleanString([a, ' ', ' ', b]) == [a, ' ', b]
  {
    var kept := [a, ' ', b];
    CollapseOfTwo(a, b);
    KeepAllowedKeepsAllowed(kept);
    NoStarUnchanged(kept);
    StripTrimmed(kept);
  }

  lemma CollapseOfTwo(a: char, b: char)
    requires !IsSpace(a) && !IsSpace(b)
    ensures Collapse([a, ' ', ' ', b]) == [a, ' ', b]
  {
    WordsOfTwo(a, b, ' ');
    assert JoinWords([[a], [b]]) == [a] + " " + JoinWords([[b]]);
    assert [a] + " " + [b] == [a, ' ', b];
  }

  lemma WordsOfThree(a: char, x: char, b: char, sp: char)
    requires !IsSpace(a) && !IsSpace(x) && !IsSpace(b) && IsSpace(sp)
    ensures Words([a, sp, x, sp, b]) == [[a], [x], [b]]
  {
    var r3 := [sp, b];
    var r2 := [x] + r3;
    var r1 := [sp] + r2;
    WordsAfterWord([b], []);
    assert [b] + [] == [b];
    WordsAfterSpace(sp, [b]);
    WordsAfterWord([x], r3);
    WordsAfterSpace(sp, r2);
    WordsAfterWord([a], r1);
    assert [a, sp, x, sp, b] == [a] + r1;
  }

  lemma WordsOfTwo(a: char, b: char, sp: char)
    requires !IsSpace(a) && !IsSpace(b) && IsSpace(sp)
    ensures Words([a, sp, sp, b]) == [[a], [b]]
  {
    var r2 := [sp, b];
    var r1 := [sp] + r2;
    WordsAfterWord([b], []);
    assert [b] + [] == [b];
    WordsAfterSpace(sp, [b]);
    WordsAfterSpace(sp, r2);
    WordsAfterWord([a], r1);
    assert [a, sp, sp, b] == [a] + r1;
  }

  lemma JoinOfThree(u: string, v: string, w: string)
    ensures JoinWords([u, v, w]) == u + " " + v + " " + w
  {
    assert [u, v, w][1..] == [v, w];
    assert [v, w][1..] == [w];
    assert JoinWords([v, w]) == v + " " + w;
    assert JoinWords([u, v, w]) == u + " " + (v + " " + w);
  }

  /** `split` skips a leading whitespace character. */
  lemma WordsAfterSpace(c: char, rest: string)
    requires IsSpace(c)
    ensures Words([c] + rest) == Words(rest)
  {
    assert ([c] + rest)[1..] == rest;
  }

  /** `split` cuts a word that ends at whitespace or at the end. */
  lemma WordsAfterWord(w: string, rest: string)
    requires w != [] && NoSpaceIn(w)
    requires rest == [] || IsSpace(rest[0])
    ensures Words(w + rest) == [w] + Words(rest)
  {
    WordLengthOfWord(w, rest);
    assert (w + rest)[..|w|] == w;
    assert (w + rest)[|w|..] == rest;
  }

  lemma {:induction false} WordLengthOfWord(w: string, rest: string)
    requires NoSpaceIn(w)
    requires rest == [] || IsSpace(rest[0])
    ensures WordLength(w + rest) == |w|
    decreases |w|
  {
    if w != [] {
      assert (w + rest)[1..] == w[1..] + rest;
      WordLengthOfWord(w[1..], rest);
    } else {
      assert w + rest == rest;
    }
  }

  lemma KeepAllowedCons(c: char, x: string)
    ensures KeepAllowed([c] + x) == (if Allowed(c) then [c] else []) + KeepAllowed(x)
  {
    assert ([c] + x)[1..] == x;
  }

  lemma NoStarUnchanged(s: string)
    requires forall k :: 0 <= k < |s| ==> s[k] != '*'
    ensures SpaceAfterBold(SpaceBeforeBold(s, 0), 0) == s
  {
    NoStarBefore(s, 0);
    NoStarAfter(s, 0);
  }

  lemma {:induction false} NoStarBefore(s: string, i: nat)
    requires i <= |s|
    requires forall k :: 0 <= k < |s| ==> s[k] != '*'
    ensures SpaceBeforeBold(s, i) == s[i..]
    decreases |s| - i
  {
    if i < |s| {
      NoStarBefore(s, i + 1);
      assert s[i..] == [s[i]] + s[i + 1..];
    }
  }

  lemma {:induction false} NoStarAfter(s: string, i: nat)
    requires i <= |s|
    requires forall k :: 0 <= k < |s| ==> s[k] != '*'
    ensures SpaceAfterBold(s, i) == s[i..]
    decreases |s| - i
  {
    if i < |s| {
      NoStarAfter(s, i + 1);
      assert s[i..] == [s[i]] + s[i + 1..];
    }
  }

  /** The scans copy a stretch without `*` unchanged. */
  lemma {:induction false} BeforeBoldSkips(s: string, i: nat, p: nat)
    requires i <= p <= |s|
    requires forall k :: i <= k < p ==> s[k] != '*'
    ensures SpaceBeforeBold(s, i) == s[i..p] + SpaceBeforeBold(s, p)
    decreases p - i
  {
    var rest := SpaceBeforeBold(s, p);
    if i == p {
      assert s[i..p] + rest == rest;
    } else {
      BeforeBoldSkips(s, i + 1, p);
      BeforeBoldPlain(s, i);
      ConsSlice(s, i, p, rest);
    }
  }

  lemma {:induction false} AfterBoldSkips(s: string, i: nat, p: nat)
    requires i <= p <= |s|
    requires forall k :: i <= k < p ==> s[k] != '*'
    ensures SpaceAfterBold(s, i) == s[i..p] + SpaceAfterBold(s, p)
    decreases p - i
  {
    var rest := SpaceAfterBold(s, p);
    if i == p {
      assert s[i..p] + rest == rest;
    } else {
      AfterBoldSkips(s, i + 1, p);
      AfterBoldPlain(s, i);
      ConsSlice(s, i, p, rest);
    }
  }

  lemma ConsSlice(s: string, i: nat, p: nat, rest: string)
    requires i < p <= |s|
    ensures [s[i]] + (s[i + 1..p] + rest) == s[i..p] + rest
  {
    assert s[i..p] == [s[i]] + s[i + 1..p];
  }

  lemma BeforeBoldPlain(s: string, i: nat)
    requires i < |s| && s[i] != '*'
    ensures SpaceBeforeBold(s, i) == [s[i]] + SpaceBeforeBold(s, i + 1)
  {
  }

  lemma AfterBoldPlain(s: string, i: nat)
    requires i < |s| && s[i] != '*'
    ensures SpaceAfterBold(s, i) == [s[i]] + SpaceAfterBold(s, i + 1)
  {
  }

  lemma BeforeBoldMarker(s: string, i: nat)
    requires BoldAt(s, i) && (i == 0 || !IsSpace(s[i - 1]))
    ensures SpaceBeforeBold(s, i) == " **" + SpaceBeforeBold(s, i + 2)
  {
  }

  lemma AfterBoldMarker(s: string, i: nat)
    requires BoldAt(s, i) && (i + 2 == |s| || !IsSpace(s[i + 2]))
    ensures SpaceAfterBold(s, i) == "** " + SpaceAfterBold(s, i + 2)
  {
  }

  /** The first bold marker, when it is at the start or right after a
      character that is not whitespace, gains a space in front of it
      (app.py:38); the text before it is kept. */
  lemma BoldGainsSpaceBefore(s: string, p: nat)
    requires BoldAt(s, p) && (p == 0 || !IsSpace(s[p - 1]))
    requires forall k :: 0 <= k < p ==> s[k] != '*'
    ensures SpaceBeforeBold(s, 0) == s[..p] + " **" + SpaceBeforeBold(s, p + 2)
  {
    BeforeBoldSkips(s, 0, p);
    BeforeBoldMarker(s, p);
    var rest := SpaceBeforeBold(s, p + 2);
    assert s[0..p] == s[..p];
    assert s[..p] + (" **" + rest) == s[..p] + " **" + rest;
  }

  /** The first bold marker, when it is at the end or right before a
      character that is not whitespace, gains a space after it
      (app.py:39); the text before it is kept. */
  lemma BoldGainsSpaceAfter(s: string, p: nat)
    requires BoldAt(s, p) && (p + 2 == |s| || !IsSpace(s[p + 2]))
    requires forall k :: 0 <= k < p ==> s[k] != '*'
    ensures SpaceAfterBold(s, 0) == s[..p] + "** " + SpaceAfterBold(s, p + 2)
  {
    AfterBoldSkips(s, 0, p);
    AfterBoldMarker(s, p);
    var rest := SpaceAfterBold(s, p + 2);
    assert s[0..p] == s[..p];
    assert s[..p] + ("** " + rest) == s[..p] + "** " + rest;
  }

  /** On displayable text the visible characters are the non-whitespace ones. */
  lemma {:induction false} VisibleOfDisplayable(s: string)
    requires AllDisplayable(s)
    ensures Visible(s) == NonSpace(s)
    decreases |s|
  {
    if s != [] {
      VisibleOfDisplayable(s[1..]);
    }
  }

  // ---------------------------------------------------------------------
  // Lemmas behind the contracts above

  lemma {:induction false} JoinWordsShape(ws: seq<string>)
    requires forall k :: 0 <= k < |ws| ==> ws[k] != [] && NoSpaceIn(ws[k])
    ensures OnlyPlainSpaces(JoinWords(ws))
    ensures JoinWords(ws) == [] || (!IsSpace(JoinWords(ws)[0]) && !IsSpace(JoinWords(ws)[|JoinWords(ws)| - 1]))
    ensures forall k :: 0 < k < |JoinWords(ws)| ==> !IsSpace(JoinWords(ws)[k - 1]) || !IsSpace(JoinWords(ws)[k])
    decreases |ws|
  {
    if |ws| == 1 {
      assert JoinWords(ws) == ws[0];
    } else if |ws| > 1 {
      JoinWordsShape(ws[1..]);
      var rest := JoinWords(ws[1..]);
      var w := ws[0];
      var r := w + " " + rest;
      assert JoinWords(ws) == r;
      assert ws[1] != [];
      assert rest != [] && !IsSpace(rest[0]);
      forall k | 0 <= k < |r|
        ensures r[k] == ' ' || !IsSpace(r[k])
        ensures k > 0 ==> !IsSpace(r[k - 1]) || !IsSpace(r[k])
      {
        if k < |w| {
          assert r[k] == w[k];
          if k > 0 { assert r[k - 1] == w[k - 1]; }
        } else if k == |w| {
          assert r[k - 1] == w[|w| - 1];
        } else if k == |w| + 1 {
          assert r[k] == rest[0];
        } else {
          assert r[k] == rest[k - |w| - 1];
          assert r[k - 1] == rest[k - |w| - 2];
        }
      }
      assert rest[|rest| - 1] == r[|r| - 1];
    }
  }

  /** Splitting words joined by single spaces gives the words back. */
  lemma {:induction false} WordsOfJoin(ws: seq<string>)
    requires forall k :: 0 <= k < |ws| ==> ws[k] != [] && NoSpaceIn(ws[k])
    ensures Words(JoinWords(ws)) == ws
    decreases |ws|
  {
    if |ws| == 1 {
      WordsAfterWord(ws[0], []);
      assert ws[0] + [] == ws[0];
    } else if |ws| > 1 {
      WordsOfJoin(ws[1..]);
      WordsOfSpacedWord(ws[0], JoinWords(ws[1..]));
      assert ws == [ws[0]] + ws[1..];
    }
  }

  /** `split` cuts a word followed by a space. */
  lemma WordsOfSpacedWord(w: string, rest: string)
    requires w != [] && NoSpaceIn(w)
    ensures Words(w + " " + rest) == [w] + Words(rest)
  {
    WordsAfterSpace(' ', rest);
    WordsAfterWord(w, [' '] + rest);
    assert w + " " + rest == w + ([' '] + rest);
  }

  lemma {:induction false} VisibleAppend(a: string, b: string)
    ensures Visible(a + b) == Visible(a) + Visible(b)
    decreases |a|
  {
    if a == [] {
      assert a + b == b;
    } else {
      assert (a + b)[1..] == a[1..] + b;
      VisibleAppend(a[1..], b);
    }
  }

  lemma {:induction false} KeepAllowedAppend(a: string, b: string)
    ensures KeepAllowed(a + b) == KeepAllowed(a) + KeepAllowed(b)
    decreases |a|
  {
    if a == [] {
      assert a + b == b;
    } else {
      assert (a + b)[1..] == a[1..] + b;
      KeepAllowedAppend(a[1..], b);
    }
  }

  /** Dropping whitespace and then filtering the allow-list leaves the
      visible characters too. */
  lemma {:induction false} KeepAllowedOfNonSpace(s: string)
    ensures KeepAllowed(NonSpace(s)) == Visible(s)
    decreases |s|
  {
    if s != [] {
      var head := if IsSpace(s[0]) then [] else [s[0]];
      KeepAllowedOfNonSpace(s[1..]);
      KeepAllowedAppend(head, NonSpace(s[1..]));
    }
  }

  /** A word list laid out by `split` holds the non-whitespace characters. */
  lemma {:induction false} ConcatWords(s: string)
    ensures Concat(Words(s)) == NonSpace(s)
    decreases |s|
  {
    if s != [] {
      if IsSpace(s[0]) {
        ConcatWords(s[1..]);
      } else {
        var n := WordLength(s);
        var w, rest := s[..n], s[n..];
        assert NoSpaceIn(w);
        NonSpaceOfWord(w);
        ConcatWords(rest);
        SplitAt(s, n);
        NonSpaceAppend(w, rest);
        assert Concat(Words(s)) == Concat([w] + Words(rest));
        ConcatCons(w, Words(rest));
      }
    }
  }

  lemma ConcatCons(w: string, ws: seq<string>)
    ensures Concat([w] + ws) == w + Concat(ws)
  {
    assert ([w] + ws)[1..] == ws;
  }

  lemma {:induction false} NonSpaceOfWord(w: string)
    requires NoSpaceIn(w)
    ensures NonSpace(w) == w
    decreases |w|
  {
    if w != [] {
      NonSpaceOfWord(w[1..]);
      assert w == [w[0]] + w[1..];
    }
  }

  /** Joining words with single spaces loses no visible character. */
  lemma {:induction false} NonSpaceOfJoin(ws: seq<string>)
    requires forall k :: 0 <= k < |ws| ==> NoSpaceIn(ws[k])
    ensures NonSpace(JoinWords(ws)) == Concat(ws)
    decreases |ws|
  {
    if |ws| == 1 {
      NonSpaceOfWord(ws[0]);
      assert Concat(ws) == ws[0] + Concat([]);
    } else if |ws| > 1 {
      NonSpaceOfJoin(ws[1..]);
      NonSpaceAppend(ws[0] + " ", JoinWords(ws[1..]));
      NonSpaceAppend(ws[0], " ");
      NonSpaceOfWord(ws[0]);
    }
  }

  /** The marker with a space on either side keeps only its two stars. */
  lemma NonSpaceOfPaddedMarker(x: string)
    ensures NonSpace(" **" + x) == "**" + NonSpace(x)
    ensures NonSpace("** " + x) == "**" + NonSpace(x)
  {
    NonSpaceAppend(" **", x);
    NonSpaceAppend("** ", x);
    assert NonSpace(" **") == "**" by {
      assert " **"[1..] == "**";
      assert "**"[1..] == "*";
      assert "*"[1..] == [];
    }
    assert NonSpace("** ") == "**" by {
      assert "** "[1..] == "* ";
      assert "* "[1..] == " ";
      assert " "[1..] == [];
    }
  }

  /** The suffix of `s` at a marker is the marker and the rest. */
  lemma NonSpaceAtMarker(s: string, i: nat)
    requires BoldAt(s, i)
    ensures NonSpace(s[i..]) == "**" + NonSpace(s[i + 2..])
  {
    assert s[i..] == [s[i]] + ([s[i + 1]] + s[i + 2..]);
    NonSpaceCons(s[i], [s[i + 1]] + s[i + 2..]);
    NonSpaceCons(s[i + 1], s[i + 2..]);
  }

  lemma NonSpaceCons(c: char, x: string)
    ensures NonSpace([c] + x) == (if IsSpace(c) then [] else [c]) + NonSpace(x)
  {
    assert ([c] + x)[1..] == x;
  }

  lemma NonSpaceAtChar(s: string, i: nat)
    requires i < |s|
    ensures NonSpace(s[i..]) == (if IsSpace(s[i]) then [] else [s[i]]) + NonSpace(s[i + 1..])
  {
    assert s[i..] == [s[i]] + s[i + 1..];
    NonSpaceCons(s[i], s[i + 1..]);
  }

  lemma {:induction false} SpaceBeforeBoldKeepsNonSpace(s: string, i: nat)
    requires i <= |s|
    ensures NonSpace(SpaceBeforeBold(s, i)) == NonSpace(s[i..])
    decreases |s| - i
  {
    if i < |s| {
      if BoldAt(s, i) && (i == 0 || !IsSpace(s[i - 1])) {
        SpaceBeforeBoldKeepsNonSpace(s, i + 2);
        NonSpaceOfPaddedMarker(SpaceBeforeBold(s, i + 2));
        NonSpaceAtMarker(s, i);
      } else {
        SpaceBeforeBoldKeepsNonSpace(s, i + 1);
        NonSpaceCons(s[i], SpaceBeforeBold(s, i + 1));
        NonSpaceAtChar(s, i);
      }
    }
  }

  lemma {:induction false} SpaceAfterBoldKeepsNonSpace(s: string, i: nat)
    requires i <= |s|
    ensures NonSpace(SpaceAfterBold(s, i)) == NonSpace(s[i..])
    decreases |s| - i
  {
    if i < |s| {
      if BoldAt(s, i) && (i + 2 == |s| || !IsSpace(s[i + 2])) {
        SpaceAfterBoldKeepsNonSpace(s, i + 2);
        NonSpaceOfPaddedMarker(SpaceAfterBold(s, i + 2));
        NonSpaceAtMarker(s, i);
      } else {
        SpaceAfterBoldKeepsNonSpace(s, i + 1);
        NonSpaceCons(s[i], SpaceAfterBold(s, i + 1));
        NonSpaceAtChar(s, i);
      }
    }
  }

  /** The whole pipeline, before stripping, keeps exactly the visible
      characters of its input and holds displayable characters only. */
  lemma CleanKeepsVisible(s: string)
    ensures var padded := SpaceAfterBold(SpaceBeforeBold(KeepAllowed(Collapse(s)), 0), 0);
            NonSpace(padded) == Visible(s) && AllDisplayable(padded)
  {
    var collapsed := Collapse(s);
    var filtered := KeepAllowed(collapsed);
    var before := SpaceBeforeBold(filtered, 0);
    var padded := SpaceAfterBold(before, 0);
    SpaceAfterBoldKeepsNonSpace(before, 0);
    SpaceBeforeBoldKeepsNonSpace(filtered, 0);
    assert filtered[0..] == filtered;
    assert before[0..] == before;
    KeepAllowedOfNonSpace(collapsed);
    KeepAllowedOfNonSpace(s);
    forall k | 0 <= k < |filtered|
      ensures Displayable(filtered[k])
    {
      assert Allowed(filtered[k]);
    }
  }

  lemma StripKeepsDisplayable(s: string)
    requires AllDisplayable(s)
    ensures AllDisplayable(Strip(s))
    ensures NonSpace(Strip(s)) == NonSpace(s)
  {
    StripKeepsNonSpace(s);
    var r := Strip(s);
    var i := StripOffset(s);
    forall k | 0 <= k < |r|
      ensures Displayable(r[k])
    {
      assert r[k] == s[i + k];
    }
  }
}
