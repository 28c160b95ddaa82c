/** Text normalisation (`clean_text`, notebooks/app.py:72-74) and the substring
    test behind Python's `kw in cleaned` (notebooks/app.py:80). */
module Text {

  /** The characters Python's `str.isspace()`, and hence the `\s` class of a `str`
      regular expression, treats as whitespace: the ASCII controls 9-13 and 28-31,
      the space, the control U+0085, the line and paragraph separators U+2028 and
      U+2029, and the Unicode space separators. */
  predicate IsWhitespace(c: char) {
    var n := c as int;
    (9 <= n <= 13) || (28 <= n <= 32) || n == 0x85 || n == 0xA0 || n == 0x1680
    || (0x2000 <= n <= 0x200A) || n == 0x2028 || n == 0x2029 || n == 0x202F
    || n == 0x205F || n == 0x3000
  }

  /** A character that survives `re.sub(r'[^a-z0-9\s]', '', ...)`. */
  predicate IsAllowed(c: char) {
    ('a' <= c <= 'z') || ('0' <= c <= '9') || IsWhitespace(c)
  }

  /** Every character of `s` is one that cleaning keeps. */
  predicate AllAllowed(s: string) {
    forall i :: 0 <= i < |s| ==> IsAllowed(s[i])
  }

  /** Lower-casing of one character, restricted to ASCII. */
  function Lower(c: char): (d: char)
    ensures 'A' <= c <= 'Z' ==> 'a' <= d <= 'z' && d as int == c as int + 32
    ensures !('A' <= c <= 'Z') ==> d == c
  {
    if 'A' <= c <= 'Z' then (c as int + 32) as char else c
  }

  /** `str.lower()`, character by character. */
  function LowerText(s: string): (r: string)
    ensures |r| == |s|
    ensures forall i :: 0 <= i < |s| ==> r[i] == Lower(s[i])
  {
    seq(|s|, i requires 0 <= i < |s| => Lower(s[i]))
  }

  /** What cleaning does with one character: its lower-case form if that is
      allowed, nothing otherwise. */
  function Keep(c: char): (r: string)
    ensures |r| <= 1
    ensures r == [] <==> !IsAllowed(Lower(c))
    ensures AllAllowed(r)
  {
    if IsAllowed(Lower(c)) then [Lower(c)] else []
  }

  /** `clean_text`: lower-case, then delete every character outside
      `a-z`, `0-9` and whitespace. Whitespace runs are kept as they are. */
  function CleanText(s: string): (r: string)
    ensures |r| <= |s|
    ensures AllAllowed(r)
  {
    if s == [] then [] else Keep(s[0]) + CleanText(s[1..])
  }

  /** Cleaning commutes with concatenation. */
  lemma {:induction false} CleanAppend(a: string, b: string)
    ensures CleanText(a + b) == CleanText(a) + CleanText(b)
  {
    if a == [] {
      assert a + b == b;
    } else {
      assert (a + b)[0] == a[0];
      assert (a + b)[1..] == a[1..] + b;
      CleanAppend(a[1..], b);
    }
  }

  /** Cleaning handles every character on its own, in place: the characters
      before and after it are cleaned independently and keep their order. */
  lemma {:induction false} CleanAround(a: string, c: char, b: string)
    ensures CleanText(a + [c] + b) == CleanText(a) + Keep(c) + CleanText(b)
  {
    var t := [c] + b;
    assert t[0] == c && t[1..] == b;
    assert CleanText(t) == Keep(c) + CleanText(b);
    assert a + [c] + b == a + t;
    CleanAppend(a, t);
  }

  /** A deleted character between two clean words joins them. */
  lemma {:induction false} CleanJoinsAround(x: string, c: char, y: string)
    requires AllAllowed(x) && AllAllowed(y) && !IsAllowed(Lower(c))
    ensures CleanText(x + [c] + y) == x + y
  {
    if x == [] {
      assert x + [c] + y == [c] + y;
      assert ([c] + y)[1..] == y;
      CleanFixpoint(y);
    } else {
      var t := x + [c] + y;
      assert t[0] == x[0] && t[1..] == x[1..] + [c] + y;
      assert AllAllowed(x[1..]) by {
        forall i | 0 <= i < |x[1..]| ensures IsAllowed(x[1..][i]) {
          assert x[1..][i] == x[i + 1];
        }
      }
      assert IsAllowed(x[0]);
      CleanJoinsAround(x[1..], c, y);
      assert x + y == [x[0]] + (x[1..] + y);
    }
  }

  /** A text is left unchanged by cleaning exactly when all its characters are
      already allowed. */
  lemma {:induction false} CleanFixpoint(s: string)
    ensures CleanText(s) == s <==> AllAllowed(s)
  {
    if s != [] && AllAllowed(s) {
      assert IsAllowed(s[0]);
      assert AllAllowed(s[1..]) by {
        forall i | 0 <= i < |s[1..]| ensures IsAllowed(s[1..][i]) {
          assert s[1..][i] == s[i + 1];
        }
      }
      CleanFixpoint(s[1..]);
      assert s == [s[0]] + s[1..];
    }
  }

  /** Cleaning is idempotent. */
  lemma {:induction false} CleanIdempotent(s: string)
    ensures CleanText(CleanText(s)) == CleanText(s)
  {
    CleanFixpoint(CleanText(s));
  }

  /** No whitespace collapsing: a run of whitespace characters passes through
      cleaning untouched, with the text around it cleaned on each side. */
  lemma {:induction false} CleanKeepsWhitespaceRun(a: string, w: string, b: string)
    requires forall i :: 0 <= i < |w| ==> IsWhitespace(w[i])
    ensures CleanText(a + w + b) == CleanText(a) + w + CleanText(b)
  {
    CleanAppend(a + w, b);
    CleanAppend(a, w);
    CleanFixpoint(w);
  }

  /** Cleaning is insensitive to case: lower-casing first changes nothing. */
  lemma {:induction false} CleanIgnoresCase(s: string)
    ensures CleanText(LowerText(s)) == CleanText(s)
  {
    if s != [] {
      var l := LowerText(s);
      assert l[1..] == LowerText(s[1..]);
      assert Lower(l[0]) == Lower(s[0]);
      CleanIgnoresCase(s[1..]);
    }
  }

  /** `kw` occurs in `text` starting at position `i`. */
  predicate OccursAt(text: string, kw: string, i: int) {
    0 <= i && i + |kw| <= |text| && text[i..i + |kw|] == kw
  }

  /** Python's substring test `kw in text`: contiguous containment, with no
      regard for word boundaries. */
  function Contains(text: string, kw: string): (b: bool)
    ensures b <==> exists i :: OccursAt(text, kw, i)
    decreases |text|
  {
    if kw <= text then
      assert OccursAt(text, kw, 0);
      true
    else if text == [] then
      assert forall i :: !OccursAt(text, kw, i);
      false
    else
      var rest := Contains(text[1..], kw);
      ShiftOccurrence(text, kw);
      rest
  }

  /** An occurrence away from the front of `text` is an occurrence in its tail. */
  lemma {:induction false} ShiftOccurrence(text: string, kw: string)
    requires text != [] && !(kw <= text)
    ensures (exists i :: OccursAt(text, kw, i)) <==> (exists i :: OccursAt(text[1..], kw, i))
  {
    if i :| OccursAt(text, kw, i) {
      assert i != 0;
      assert text[1..][i - 1..i - 1 + |kw|] == text[i..i + |kw|];
      assert OccursAt(text[1..], kw, i - 1);
    }
    if i :| OccursAt(text[1..], kw, i) {
      assert text[i + 1..i + 1 + |kw|] == text[1..][i..i + |kw|];
      assert OccursAt(text, kw, i + 1);
    }
  }

  /** An occurrence in a piece of text is an occurrence in any text around it. */
  lemma {:induction false} ContainsInside(a: string, kw: string, b: string)
    ensures Contains(a + kw + b, kw)
  {
    assert (a + kw + b)[|a|..|a| + |kw|] == kw;
    assert OccursAt(a + kw + b, kw, |a|);
  }

  /** A keyword with a character that cleaning deletes never occurs in cleaned
      text. */
  lemma {:induction false} CleanedNeverContains(s: string, kw: string, j: int)
    requires 0 <= j < |kw| && !IsAllowed(kw[j])
    ensures !Contains(CleanText(s), kw)
  {
    var r := CleanText(s);
    forall i ensures !OccursAt(r, kw, i) {
      if 0 <= i && i + |kw| <= |r| {
        assert r[i..i + |kw|][j] == r[i + j];
        assert IsAllowed(r[i + j]);
      }
    }
  }

  /** A phrase that the text mentions, in any case, appears cleaned in the
      cleaned text. */
  lemma {:induction false} MentionSurvivesCleaning(text: string, a: string, kw: string, b: string)
    requires LowerText(text) == a + kw + b
    ensures Contains(CleanText(text), CleanText(kw))
  {
    CleanIgnoresCase(text);
    CleanAppend(a + kw, b);
    CleanAppend(a, kw);
    ContainsInside(CleanText(a), CleanText(kw), CleanText(b));
  }
}
