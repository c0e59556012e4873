/** The string functions of the source language that the models need. */
module JsText {
  import opened Prelude

  /** WhiteSpace and LineTerminator, as String.prototype.trimEnd removes them. */
  predicate IsWhitespace(c: char) {
    || c in {'\t', '\n', '\U{0B}', '\U{0C}', '\r', ' ', '\U{A0}', '\U{1680}', '\U{2028}', '\U{2029}'}
    || c in {'\U{202F}', '\U{205F}', '\U{3000}', '\U{FEFF}'} || '\U{2000}' <= c <= '\U{200A}'
  }

  function TrimEnd(s: string): (r: string)
    ensures r <= s
  {
    if s == "" || !IsWhitespace(Last(s)) then s else TrimEnd(Front(s))
  }

  function TrimStart(s: string): (r: string)
    ensures |r| <= |s| && s[|s| - |r|..] == r
    ensures r != "" ==> !IsWhitespace(r[0])
  {
    if s == "" || !IsWhitespace(s[0]) then s else TrimStart(s[1..])
  }

  /** String.prototype.trim. */
  function Trim(s: string): string {
    TrimStart(TrimEnd(s))
  }

  // ---- Trimming, said of character codes ----

  /** The code points of WhiteSpace and LineTerminator (ECMA-262, sections 12.2 and 12.3). */
  lemma WhitespaceCodes(c: char)
    ensures IsWhitespace(c) <==>
      var code := c as int;
      || code in {9, 10, 11, 12, 13, 32, 160, 5760, 8232, 8233, 8239, 8287, 12288, 65279}
      || 8192 <= code <= 8202
  {
  }

  lemma {:induction false} TrimEndStops(s: string, tail: string)
    requires s == "" || !IsWhitespace(Last(s))
    requires forall k :: 0 <= k < |tail| ==> IsWhitespace(tail[k])
    ensures TrimEnd(s + tail) == s
  {
    if tail == "" {
      assert s + tail == s;
    } else {
      assert Front(s + tail) == s + Front(tail);
      TrimEndStops(s, Front(tail));
    }
  }

  lemma {:induction false} TrimStartStops(head: string, s: string)
    requires s == "" || !IsWhitespace(s[0])
    requires forall k :: 0 <= k < |head| ==> IsWhitespace(head[k])
    ensures TrimStart(head + s) == s
  {
    if head == "" {
      assert head + s == s;
    } else {
      assert (head + s)[1..] == head[1..] + s;
      TrimStartStops(head[1..], s);
    }
  }

  /** Trimming takes the white space off both ends and nothing else. */
  lemma TrimTakesEnds(head: string, s: string, tail: string)
    requires s != "" && '!' <= s[0] <= '~' && '!' <= s[|s| - 1] <= '~'
    requires forall k :: 0 <= k < |head| ==> head[k] as int in {9, 10, 11, 12, 13, 32}
    requires forall k :: 0 <= k < |tail| ==> tail[k] as int in {9, 10, 11, 12, 13, 32}
    ensures Trim(head + s + tail) == s
  {
    TrimEndStops(head + s, tail);
    TrimStartStops(head, s);
  }

  lemma {:induction false} TrimEndIsPrefix(s: string) returns (j: nat)
    ensures j <= |s| && TrimEnd(s) == s[..j] && (j > 0 ==> !IsWhitespace(s[j - 1]))
    ensures forall k :: j <= k < |s| ==> IsWhitespace(s[k])
  {
    if s == "" || !IsWhitespace(Last(s)) {
      j := |s|;
    } else {
      j := TrimEndIsPrefix(Front(s));
    }
  }

  lemma {:induction false} TrimStartIsSuffix(s: string) returns (i: nat)
    ensures i <= |s| && TrimStart(s) == s[i..] && (i < |s| ==> !IsWhitespace(s[i]))
    ensures forall k :: 0 <= k < i ==> IsWhitespace(s[k])
  {
    if s == "" || !IsWhitespace(s[0]) {
      i := 0;
    } else {
      i := TrimStartIsSuffix(s[1..]);
      i := i + 1;
    }
  }

  lemma SliceOfPrefix(s: string, i: nat, j: nat)
    requires i <= j <= |s|
    ensures s[..j][i..] == s[i..j]
  {
  }

  lemma TrimStartOfPrefix(s: string, j: nat) returns (i: nat)
    requires j <= |s|
    ensures i <= j && TrimStart(s[..j]) == s[i..j] && (i < j ==> !IsWhitespace(s[i]))
    ensures forall k :: 0 <= k < i ==> IsWhitespace(s[k])
  {
    var head := s[..j];
    i := TrimStartIsSuffix(head);
    hide TrimStart, IsWhitespace;
    SliceOfPrefix(s, i, j);
    forall k | 0 <= k < i ensures IsWhitespace(s[k]) {
      assert head[k] == s[k];
    }
    assert i < j ==> head[i] == s[i];
  }

  /** A trimmed text is the part between the first and the last character that is no white space. */
  lemma TrimmedBetween(s: string) returns (i: nat, j: nat)
    ensures i <= j <= |s| && Trim(s) == s[i..j]
    ensures forall k :: 0 <= k < i ==> IsWhitespace(s[k])
    ensures forall k :: j <= k < |s| ==> IsWhitespace(s[k])
    ensures i < j ==> !IsWhitespace(s[i]) && !IsWhitespace(s[j - 1])
  {
    hide Trim, IsWhitespace, TrimEnd, TrimStart;
    j := TrimEndIsPrefix(s);
    TrimOfPrefix(s, j);
    i := TrimStartOfPrefix(s, j);
  }

  lemma TrimOfPrefix(s: string, j: nat)
    requires j <= |s| && TrimEnd(s) == s[..j]
    ensures Trim(s) == TrimStart(s[..j])
  {
    hide TrimEnd, TrimStart;
  }
}
