/** Recovery of the reply text and the cart from the order model's answer
    (`_handle_order_query`, chat_engine.py:469-502). The answer is scanned
    for brace-delimited candidates with the pattern
    `(\{(?:[^{}]|(?:\{[^{}]*\}))*\})`; the first candidate that decodes to an
    object with a `"response"` key supplies the reply, and its `"cart"` list,
    if any, the cart. */
module CartExtractor {
  import opened Values

  predicate IsBrace(c: char) { c == '{' || c == '}' }

  /** The braces of `t`, in order. */
  function Braces(t: string): (r: string)
    ensures |r| <= |t|
    ensures forall n :: 0 <= n < |r| ==> IsBrace(r[n])
    decreases |t|
  {
    if t == [] then [] else (if IsBrace(t[0]) then [t[0]] else []) + Braces(t[1..])
  }

  /** Reference description of a brace sequence that nests at most one
      level deep: it opens first, alternates opening and closing, and ends
      closed. With `inner` the sequence continues inside an open pair, so
      it starts with a closing brace. */
  predicate Alternates(b: string, inner: bool) {
    (b == [] ==> !inner) &&
    (b != [] ==> b[0] == (if inner then '}' else '{') && b[|b| - 1] == '}') &&
    forall n :: 0 < n < |b| ==> b[n] != b[n - 1]
  }

  /** The body of a candidate: non-brace characters and inner `{…}` groups
      without further braces, which is what `(?:[^{}]|\{[^{}]*\})*`
      matches. */
  predicate OneLevel(t: string) {
    Alternates(Braces(t), false)
  }

  /** The regular expression's match after an opening brace at `i - 1`: the
      position of the closing brace, or `None` when the match fails. The
      pattern cannot backtrack into another match, so the scan is
      deterministic; `inner` records an open inner group. */
  function Close(s: string, i: nat, inner: bool): (r: Option<nat>)
    requires i <= |s|
    ensures r.Some? ==> i <= r.value < |s| && s[r.value] == '}'
    decreases |s| - i
  {
    if i == |s| then None
    else if s[i] == '}' then (if inner then Close(s, i + 1, false) else Some(i))
    else if s[i] == '{' then (if inner then None else Close(s, i + 1, true))
    else Close(s, i + 1, inner)
  }

  /** `re.findall` from position `i`: the spans `(start, end)` of the
      matches, end inclusive. A failed match resumes at the next position,
      a successful one after its closing brace. */
  function Spans(s: string, i: nat): (r: seq<(nat, nat)>)
    requires i <= |s|
    ensures forall n :: 0 <= n < |r| ==> i <= r[n].0 < r[n].1 < |s|
    decreases |s| - i
  {
    if i == |s| then []
    else if s[i] == '{' && Close(s, i + 1, false).Some? then
      [(i, Close(s, i + 1, false).value)] + Spans(s, Close(s, i + 1, false).value + 1)
    else Spans(s, i + 1)
  }

  /** The matched substrings, in order. */
  function Candidates(s: string): (r: seq<string>)
    ensures |r| == |Spans(s, 0)|
    ensures forall n :: 0 <= n < |r| ==> r[n] == s[Spans(s, 0)[n].0..Spans(s, 0)[n].1 + 1]
  {
    var sp := Spans(s, 0);
    seq(|sp|, n requires 0 <= n < |sp| => s[sp[n].0..sp[n].1 + 1])
  }

  /** A candidate decodes to an object that has a `"response"` key. */
  predicate Accepts(c: string, parse: string -> Option<Json>) {
    parse(c).Some? && parse(c).value.JObject? && "response" in parse(c).value.fields
  }

  /** The index of the first accepted candidate at or after `k`. */
  function FirstAccepted(cs: seq<string>, parse: string -> Option<Json>, k: nat): (r: Option<nat>)
    requires k <= |cs|
    ensures r.Some? ==> k <= r.value < |cs| && Accepts(cs[r.value], parse)
    ensures r.Some? ==> forall m :: k <= m < r.value ==> !Accepts(cs[m], parse)
    ensures r.None? ==> forall m :: k <= m < |cs| ==> !Accepts(cs[m], parse)
    decreases |cs| - k
  {
    if k == |cs| then None
    else if Accepts(cs[k], parse) then Some(k)
    else FirstAccepted(cs, parse, k + 1)
  }

  /** The cart of an accepted object: its `"cart"` value when that is a
      list, otherwise empty. */
  function CartOf(fields: map<string, Json>): (r: seq<Json>)
    ensures "cart" in fields && fields["cart"].JArray? ==> r == fields["cart"].items
    ensures !("cart" in fields && fields["cart"].JArray?) ==> r == []
  {
    if "cart" in fields && fields["cart"].JArray? then fields["cart"].items else []
  }

  /** The reply text and cart recovered from the order model's answer. */
  function ExtractCart(text: string, parse: string -> Option<Json>): (r: (Json, seq<Json>))
    ensures FirstAccepted(Candidates(text), parse, 0).None? ==> r == (JString(text), [])
    ensures FirstAccepted(Candidates(text), parse, 0).Some? ==>
      var fields := parse(Candidates(text)[FirstAccepted(Candidates(text), parse, 0).value]).value.fields;
      r == (fields["response"], CartOf(fields))
    ensures r.1 != [] ==> FirstAccepted(Candidates(text), parse, 0).Some?
    ensures r != (JString(text), []) ==>
      exists n :: 0 <= n < |Candidates(text)| && Accepts(Candidates(text)[n], parse) &&
        r == (parse(Candidates(text)[n]).value.fields["response"], CartOf(parse(Candidates(text)[n]).value.fields))
  {
    var cs := Candidates(text);
    match FirstAccepted(cs, parse, 0)
    case None => (JString(text), [])
    case Some(n) =>
      var fields := parse(cs[n]).value.fields;
      (fields["response"], CartOf(fields))
  }

  // ---------------------------------------------------------------------
  // Properties

  /** A match after an opening brace ends at closing brace `j` exactly when
      the text in between nests at most one level deep. */
  lemma {:induction false} CloseIff(s: string, i: nat, inner: bool, j: nat)
    requires i <= j < |s|
    ensures Close(s, i, inner) == Some(j) <==> s[j] == '}' && Alternates(Braces(s[i..j]), inner)
    decreases |s| - i
  {
    if i == j {
      assert s[i..j] == [];
    } else {
      BracesStep(s, i, j);
      var b := Braces(s[i + 1..j]);
      if s[i] == '}' {
        AlternatesCons('}', b, inner);
        if inner {
          CloseIff(s, i + 1, false, j);
        }
      } else if s[i] == '{' {
        AlternatesCons('{', b, inner);
        if !inner {
          CloseIff(s, i + 1, true, j);
        }
      } else {
        assert Braces(s[i..j]) == b;
        CloseIff(s, i + 1, inner, j);
      }
    }
  }

  /** Every candidate is `{`, a body nesting at most one level, and `}`. */
  lemma CandidatesWellFormed(s: string, n: nat)
    requires n < |Candidates(s)|
    ensures |Candidates(s)[n]| >= 2
    ensures Candidates(s)[n][0] == '{' && Candidates(s)[n][|Candidates(s)[n]| - 1] == '}'
    ensures OneLevel(Candidates(s)[n][1..|Candidates(s)[n]| - 1])
  {
    var sp := Spans(s, 0)[n];
    var c := Candidates(s)[n];
    SpansAreMatches(s, 0);
    CloseIff(s, sp.0 + 1, false, sp.1);
    assert c == s[sp.0..sp.1 + 1];
    InnerSlice(s, sp.0, sp.1);
  }

  /** Every span is a match of the pattern, and the spans are in order and
      do not overlap. */
  lemma SpansAreMatches(s: string, i: nat)
    requires i <= |s|
    ensures forall n :: 0 <= n < |Spans(s, i)| ==>
      s[Spans(s, i)[n].0] == '{' && Close(s, Spans(s, i)[n].0 + 1, false) == Some(Spans(s, i)[n].1)
    ensures forall n :: 0 < n < |Spans(s, i)| ==> Spans(s, i)[n - 1].1 < Spans(s, i)[n].0
  {
    forall n | 0 <= n < |Spans(s, i)|
      ensures s[Spans(s, i)[n].0] == '{' && Close(s, Spans(s, i)[n].0 + 1, false) == Some(Spans(s, i)[n].1)
      ensures n > 0 ==> Spans(s, i)[n - 1].1 < Spans(s, i)[n].0
    {
      SpanIsMatch(s, i, n);
      if n > 0 {
        SpansIncrease(s, i, n);
      }
    }
  }

  lemma {:induction false} SpanIsMatch(s: string, i: nat, n: nat)
    requires i <= |s| && n < |Spans(s, i)|
    ensures s[Spans(s, i)[n].0] == '{' && Close(s, Spans(s, i)[n].0 + 1, false) == Some(Spans(s, i)[n].1)
    decreases |s| - i
  {
    var r := Spans(s, i);
    if s[i] == '{' && Close(s, i + 1, false).Some? {
      var j := Close(s, i + 1, false).value;
      var rest := Spans(s, j + 1);
      assert r == [(i, j)] + rest;
      if n > 0 {
        SpanIsMatch(s, j + 1, n - 1);
        assert r[n] == rest[n - 1];
      }
    } else {
      assert r == Spans(s, i + 1);
      SpanIsMatch(s, i + 1, n);
    }
  }

  lemma {:induction false} SpansIncrease(s: string, i: nat, n: nat)
    requires i <= |s| && 0 < n < |Spans(s, i)|
    ensures Spans(s, i)[n - 1].1 < Spans(s, i)[n].0
    decreases |s| - i
  {
    var r := Spans(s, i);
    if s[i] == '{' && Close(s, i + 1, false).Some? {
      var j := Close(s, i + 1, false).value;
      var rest := Spans(s, j + 1);
      assert r == [(i, j)] + rest;
      if n > 1 {
        SpansIncrease(s, j + 1, n - 1);
        assert r[n] == rest[n - 1] && r[n - 1] == rest[n - 2];
      } else {
        assert r[1] == rest[0];
      }
    } else {
      assert r == Spans(s, i + 1);
      SpansIncrease(s, i + 1, n);
    }
  }

  /** Every opening brace at which a match can start lies inside some
      span: the scan misses no match that does not overlap an earlier
      one. */
  lemma {:induction false} SpansCover(s: string, i: nat, p: nat)
    requires i <= p < |s| && s[p] == '{' && Close(s, p + 1, false).Some?
    ensures exists n :: 0 <= n < |Spans(s, i)| && Spans(s, i)[n].0 <= p <= Spans(s, i)[n].1
    decreases |s| - i
  {
    var r := Spans(s, i);
    if s[i] == '{' && Close(s, i + 1, false).Some? {
      var j := Close(s, i + 1, false).value;
      if p <= j {
        assert r[0] == (i, j);
      } else {
        SpansCover(s, j + 1, p);
        var rest := Spans(s, j + 1);
        var n :| 0 <= n < |rest| && rest[n].0 <= p <= rest[n].1;
        assert r[n + 1] == rest[n];
      }
    } else {
      assert p != i;
      SpansCover(s, i + 1, p);
    }
  }

  /** An answer without an opening brace has no candidate: the text comes
      back unchanged with an empty cart. */
  lemma NoBraceKeepsText(text: string, parse: string -> Option<Json>)
    requires forall k :: 0 <= k < |text| ==> text[k] != '{'
    ensures ExtractCart(text, parse) == (JString(text), [])
  {
    NoBraceNoSpans(text, 0);
  }

  /** An object embedded after brace-free prose is the first candidate;
      when it decodes with a `"response"` key, its reply and cart are the
      ones extracted, whatever follows it. */
  lemma ExtractsEmbeddedObject(prose: string, body: string, rest: string, parse: string -> Option<Json>)
    requires forall k :: 0 <= k < |prose| ==> prose[k] != '{'
    requires OneLevel(body)
    requires Accepts("{" + body + "}", parse)
    ensures var c := "{" + body + "}"; var fields := parse(c).value.fields;
      ExtractCart(prose + c + rest, parse) == (fields["response"], CartOf(fields))
  {
    FirstCandidate(prose, body, rest);
  }

  /** The first candidate of `prose + "{" + body + "}" + rest`. */
  lemma FirstCandidate(prose: string, body: string, rest: string)
    requires forall k :: 0 <= k < |prose| ==> prose[k] != '{'
    requires OneLevel(body)
    ensures var c := "{" + body + "}";
      |Candidates(prose + c + rest)| > 0 && Candidates(prose + c + rest)[0] == c
  {
    var c := "{" + body + "}";
    var s := prose + c + rest;
    var p := |prose|;
    var j := p + |c| - 1;
    Middle(prose, c, rest);
    Middle("{", body, "}");
    assert s[p..j + 1] == c;
    assert s[p + 1..j] == body by {
      assert s[p + 1..j] == c[1..|c| - 1];
    }
    assert s[p] == '{' && s[j] == '}';
    CloseIff(s, p + 1, false, j);
    FirstSpan(s, p);
  }

  /** When no opening brace precedes a match at `p`, that match is the
      first span. */
  lemma FirstSpan(s: string, p: nat)
    requires p < |s| && s[p] == '{' && Close(s, p + 1, false).Some?
    requires forall k :: 0 <= k < p ==> s[k] != '{'
    ensures |Spans(s, 0)| > 0 && Spans(s, 0)[0] == (p, Close(s, p + 1, false).value)
  {
    SkipProse(s, 0, p);
  }

  lemma Middle(a: string, b: string, c: string)
    ensures (a + b + c)[|a|..|a| + |b|] == b
    ensures forall k :: 0 <= k < |a| ==> (a + b + c)[k] == a[k]
  {
  }

  lemma InnerSlice(s: string, a: nat, b: nat)
    requires a < b < |s|
    ensures s[a..b + 1][1..b - a] == s[a + 1..b]
  {
    var t := s[a..b + 1];
    var u := t[1..b - a];
    var v := s[a + 1..b];
    forall k | 0 <= k < |u|
      ensures u[k] == v[k]
    {
      assert u[k] == t[k + 1];
    }
  }

  lemma BracesStep(s: string, i: nat, j: nat)
    requires i < j <= |s|
    ensures Braces(s[i..j]) == (if IsBrace(s[i]) then [s[i]] else []) + Braces(s[i + 1..j])
  {
    assert s[i..j][1..] == s[i + 1..j];
  }

  lemma AlternatesCons(c: char, b: string, inner: bool)
    requires IsBrace(c)
    requires forall n :: 0 <= n < |b| ==> IsBrace(b[n])
    ensures Alternates([c] + b, inner) <==> (if inner then c == '}' else c == '{') && Alternates(b, !inner)
  {
    var cb := [c] + b;
    assert forall n :: 0 < n < |cb| ==> cb[n] == b[n - 1];
    if b != [] {
      assert cb[|cb| - 1] == b[|b| - 1];
      assert cb[1] == b[0];
      if Alternates(cb, inner) {
        assert cb[1] != cb[0] && IsBrace(b[0]);
        assert b[0] == (if inner then '{' else '}');
        forall n | 0 < n < |b|
          ensures b[n] != b[n - 1]
        {
          assert cb[n + 1] == b[n] && cb[n] == b[n - 1];
          assert 0 < n + 1 < |cb|;
        }
      }
      if (if inner then c == '}' else c == '{') && Alternates(b, !inner) {
        forall n | 0 < n < |cb|
          ensures cb[n] != cb[n - 1]
        {
          if n > 1 {
            assert cb[n] == b[n - 1] && cb[n - 1] == b[n - 2];
          }
        }
      }
    }
  }

  lemma {:induction false} NoBraceNoSpans(s: string, i: nat)
    requires i <= |s|
    requires forall k :: 0 <= k < |s| ==> s[k] != '{'
    ensures Spans(s, i) == []
    decreases |s| - i
  {
    if i < |s| {
      NoBraceNoSpans(s, i + 1);
    }
  }

  /** The scan passes over positions without an opening brace. */
  lemma {:induction false} SkipProse(s: string, i: nat, p: nat)
    requires i <= p <= |s|
    requires forall k :: i <= k < p ==> s[k] != '{'
    ensures Spans(s, i) == Spans(s, p)
    decreases p - i
  {
    if i < p {
      SkipProse(s, i + 1, p);
    }
  }
}
