/** What updating one section does to another: it stays as it is exactly when the two lie apart. Headers are
    found anywhere and by prefix, and a body may begin right behind the header line, so they need not. */
module SectionFrame {
  import opened JsText
  import opened Prelude
  import opened SectionText

  /** The section found as `b` ends before the body of `a`, with the mark that ends it, or starts behind it. */
  predicate Apart(a: Match, b: Match) {
    b.end + 4 <= a.body || a.end <= b.start
  }

  /** A new body that ends a line and starts no section, not even right behind the header. */
  ghost predicate Plain(put: string) {
    |put| >= 2 && put[|put| - 1] == '\n' && put[|put| - 2] == '>' && NoNext("\n" + put)
  }

  // ---- Parts of a text ----

  lemma InTail(h: string, tail: string, pat: string, j: nat)
    ensures MatchesAt(h + tail, pat, |h| + j) <==> MatchesAt(tail, pat, j)
    ensures NextAt(h + tail, |h| + j) <==> NextAt(tail, j)
  {
    var t := h + tail;
    assert forall k :: 0 <= k < |tail| ==> t[|h| + k] == tail[k];
    if j + |pat| <= |tail| {
      forall k | 0 <= k < |pat| ensures Fits(pat[k], t[|h| + j + k]) <==> Fits(pat[k], tail[j + k]) {
        assert t[|h| + (j + k)] == tail[j + k];
      }
    }
  }

  lemma HeaderInTail(h: string, tail: string, pat: string, j: nat)
    ensures HeaderAt(h + tail, pat, |h| + j) <==> HeaderAt(tail, pat, j)
  {
    var t := h + tail;
    hide MatchesAt, NextAt;
    InTail(h, tail, pat, j);
    if HeaderAt(tail, pat, j) {
      var k :| j + |pat| <= k < |tail| && tail[k] == '\n';
      assert t[|h| + k] == '\n';
    }
    if HeaderAt(t, pat, |h| + j) {
      var k :| |h| + j + |pat| <= k < |t| && t[k] == '\n';
      assert tail[k - |h|] == '\n';
    }
  }

  lemma LineInTail(h: string, tail: string, x: nat, y: nat)
    requires x <= y <= |tail|
    ensures OneLine(h + tail, |h| + x, |h| + y) <==> OneLine(tail, x, y)
    ensures (h + tail)[|h| + x..|h| + y] == tail[x..y]
  {
    var t := h + tail;
    assert forall k :: 0 <= k < |tail| ==> t[|h| + k] == tail[k];
    if OneLine(t, |h| + x, |h| + y) {
      assert forall k :: x <= k < y ==> t[|h| + k] == tail[k];
    }
    if OneLine(tail, x, y) {
      assert forall k :: |h| + x <= k < |h| + y ==> t[k] == tail[k - |h|];
    }
  }

  lemma NextInHead(h: string, tail: string, j: nat)
    requires j + 4 <= |h|
    ensures NextAt(h + tail, j) <==> NextAt(h, j)
  {
  }

  /** A match in the tail of a text is one in the text, if no header stands before it. */
  lemma TailMatch(h: string, tail: string, pat: string, b: Match)
    requires IsMatch(tail, pat, b) && forall i: nat :: i < |h| ==> !HeaderAt(h + tail, pat, i)
    ensures IsMatch(h + tail, pat, Match(|h| + b.start, |h| + b.body, |h| + b.end))
  {
    var t := h + tail;
    InTail(h, tail, pat, b.start);
    InTail(h, tail, pat, b.end);
    LineInTail(h, tail, b.start + |pat|, b.body - 1);
    assert t[|h| + b.body - 1] == tail[b.body - 1];
    hide MatchesAt, NextAt, HeaderAt, OneLine;
    forall i: nat | i < |h| + b.start ensures !HeaderAt(t, pat, i) {
      if i >= |h| {
        HeaderInTail(h, tail, pat, i - |h|);
      }
    }
    forall j | |h| + b.body <= j < |h| + b.end ensures !NextAt(t, j) {
      InTail(h, tail, pat, j - |h|);
    }
  }

  /** And the other way. */
  lemma MatchInTail(h: string, tail: string, pat: string, b: Match)
    requires IsMatch(h + tail, pat, Match(|h| + b.start, |h| + b.body, |h| + b.end))
    ensures IsMatch(tail, pat, b)
  {
    var t := h + tail;
    InTail(h, tail, pat, b.start);
    InTail(h, tail, pat, b.end);
    LineInTail(h, tail, b.start + |pat|, b.body - 1);
    assert t[|h| + b.body - 1] == tail[b.body - 1];
    hide MatchesAt, NextAt, HeaderAt, OneLine;
    forall i: nat | i < b.start ensures !HeaderAt(tail, pat, i) {
      HeaderInTail(h, tail, pat, i);
    }
    forall j | b.body <= j < b.end ensures !NextAt(tail, j) {
      InTail(h, tail, pat, j);
    }
  }

  /** The updated text is the old head, the new body and the old tail. */
  lemma SplicedParts(text: string, a: Match, put: string)
    requires a.body <= a.end <= |text|
    ensures Spliced(text, a, put) == (text[..a.body] + put) + text[a.end..]
    ensures text == text[..a.end] + text[a.end..] && Spliced(text, a, put)[..a.body] == text[..a.body]
  {
  }

  // ---- Headers after an update ----

  ghost predicate Update(text: string, a: Match, put: string, pat: string) {
    && 0 < a.body <= a.end <= |text| && text[a.body - 1] == '\n' && OneLine(pat, 0, |pat|) && |pat| > 0
    && |put| > 0 && put[|put| - 1] == '\n'
  }

  lemma FrontHeader(text: string, a: Match, put: string, pat: string, i: nat)
    requires Update(text, a, put, pat) && i < a.body
    ensures HeaderAt(Spliced(text, a, put), pat, i) <==> HeaderAt(text, pat, i)
  {
    var t := Spliced(text, a, put);
    assert t[..a.body] == text[..a.body];
    assert t[a.body - 1] == t[..a.body][a.body - 1] == text[a.body - 1];
    hide Spliced, OneLine, MatchesAt;
    if HeaderAt(t, pat, i) {
      SharedHeader(text, t, pat, i, a.body - 1);
    }
    if HeaderAt(text, pat, i) {
      SharedHeader(t, text, pat, i, a.body - 1);
    }
  }

  lemma SplicedPut(text: string, a: Match, put: string)
    requires a.body <= a.end <= |text|
    ensures a.body + |put| <= |Spliced(text, a, put)|
    ensures forall k :: 0 <= k < |put| ==> Spliced(text, a, put)[a.body + k] == put[k]
  {
  }

  lemma PutHeader(text: string, a: Match, put: string, pat: string, i: nat)
    requires Update(text, a, put, pat) && !Mentions(put, pat) && a.body <= i < a.body + |put|
    ensures !HeaderAt(Spliced(text, a, put), pat, i)
  {
    hide Spliced, MatchesAt;
    SplicedPut(text, a, put);
    var t := Spliced(text, a, put);
    assert t[a.body + (|put| - 1)] == '\n';
    if MatchesAt(t, pat, i) {
      MatchOnOneLine(t, pat, i, a.body + |put| - 1);
      InsideMatch(t, put, pat, a.body, i - a.body);
    }
  }

  lemma InsideMatch(t: string, put: string, pat: string, at: nat, k: nat)
    requires at + |put| <= |t| && forall j :: 0 <= j < |put| ==> t[at + j] == put[j]
    requires MatchesAt(t, pat, at + k) && k + |pat| <= |put|
    ensures MatchesAt(put, pat, k)
  {
    forall j | 0 <= j < |pat| ensures Fits(pat[j], put[k + j]) {
      assert t[at + (k + j)] == put[k + j];
    }
  }

  /** The updated text has no header that the old text or the new body does not have. */
  lemma NoNewHeader(text: string, a: Match, put: string, pat: string, i: nat)
    requires Update(text, a, put, pat) && !Mentions(put, pat) && HeaderAt(Spliced(text, a, put), pat, i)
    ensures (i < a.body && HeaderAt(text, pat, i))
      || (i >= a.body + |put| && HeaderAt(text, pat, i - a.body - |put| + a.end))
  {
    SplicedParts(text, a, put);
    hide Spliced, HeaderAt, Mentions, OneLine;
    if i < a.body {
      FrontHeader(text, a, put, pat, i);
    } else if i < a.body + |put| {
      PutHeader(text, a, put, pat, i);
    } else {
      HeaderInTail(text[..a.body] + put, text[a.end..], pat, i - a.body - |put|);
      HeaderInTail(text[..a.end], text[a.end..], pat, i - a.body - |put|);
    }
  }

  /** A section that ends before the updated body is found where it was. */
  lemma EarlierStays(text: string, a: Match, put: string, pat: string, b: Match)
    requires Update(text, a, put, pat) && IsMatch(text, pat, b) && b.end + 4 <= a.body
    ensures Find(Spliced(text, a, put), pat, 0) == Some(b)
    ensures b.end <= |Spliced(text, a, put)| && Spliced(text, a, put)[b.body..b.end] == text[b.body..b.end]
  {
    var t, h := Spliced(text, a, put), text[..a.body];
    assert t == h + (put + text[a.end..]) && text == h + text[a.body..];
    assert forall k :: 0 <= k < a.body ==> t[k] == text[k];
    assert MatchesAt(t, pat, b.start) && OneLine(t, b.start + |pat|, b.body - 1);
    hide Spliced, Find, HeaderAt, NextAt;
    forall i: nat | i < b.start ensures !HeaderAt(t, pat, i) {
      FrontHeader(text, a, put, pat, i);
    }
    forall j | b.body <= j <= b.end ensures NextAt(t, j) <==> NextAt(text, j) {
      NextInHead(h, put + text[a.end..], j);
      NextInHead(h, text[a.body..], j);
    }
    MatchIsUnique(t, pat, b);
  }

  lemma LaterMatch(text: string, a: Match, put: string, pat: string, c: Match)
    requires Update(text, a, put, pat) && !Mentions(put, pat)
    requires IsMatch(text, pat, Match(a.end + c.start, a.end + c.body, a.end + c.end))
    ensures var e := a.body + |put|;
      Find(Spliced(text, a, put), pat, 0) == Some(Match(e + c.start, e + c.body, e + c.end))
  {
    hide Find, HeaderAt, Mentions, MatchesAt, NextAt, OneLine, Spliced, IsMatch;
    var t, h, tail := Spliced(text, a, put), text[..a.body] + put, text[a.end..];
    SplicedParts(text, a, put);
    NoHeaderBefore(text, a, put, pat, c);
    MatchInTail(text[..a.end], tail, pat, c);
    TailMatch(h, tail, pat, c);
    MatchIsUnique(t, pat, Match(|h| + c.start, |h| + c.body, |h| + c.end));
  }

  lemma NoHeaderBefore(text: string, a: Match, put: string, pat: string, c: Match)
    requires Update(text, a, put, pat) && !Mentions(put, pat)
    requires IsMatch(text, pat, Match(a.end + c.start, a.end + c.body, a.end + c.end))
    ensures forall i: nat :: i < a.body + |put| ==> !HeaderAt(Spliced(text, a, put), pat, i)
  {
    hide HeaderAt, Mentions, MatchesAt, NextAt, OneLine, Spliced;
    forall i: nat | i < a.body + |put| ensures !HeaderAt(Spliced(text, a, put), pat, i) {
      if HeaderAt(Spliced(text, a, put), pat, i) {
        NoNewHeader(text, a, put, pat, i);
      }
    }
  }

  lemma LaterBody(text: string, a: Match, put: string, x: nat, y: nat)
    requires a.body <= a.end <= |text| && x <= y <= |text| - a.end
    ensures var e := a.body + |put|;
      e + y <= |Spliced(text, a, put)| && Spliced(text, a, put)[e + x..e + y] == text[a.end + x..a.end + y]
  {
    SplicedParts(text, a, put);
    LineInTail(text[..a.body] + put, text[a.end..], x, y);
    LineInTail(text[..a.end], text[a.end..], x, y);
  }

  /** A section that starts behind it is found with the same body, unless the new body mentions it. */
  lemma LaterStays(text: string, a: Match, put: string, pat: string, b: Match)
    requires Update(text, a, put, pat) && !Mentions(put, pat) && IsMatch(text, pat, b) && a.end <= b.start
    ensures var t := Spliced(text, a, put); var r := Find(t, pat, 0);
      r.Some? && b.end <= |text| && t[r.value.body..r.value.end] == text[b.body..b.end]
  {
    hide Find, HeaderAt, Mentions, MatchesAt, NextAt, OneLine, Spliced;
    LaterMatch(text, a, put, pat, Match(b.start - a.end, b.body - a.end, b.end - a.end));
    LaterBody(text, a, put, b.body - a.end, b.end - a.end);
  }

  lemma HeaderOfMatch(text: string, pat: string, m: Match)
    requires IsMatch(text, pat, m)
    ensures HeaderAt(text, pat, m.start)
  {
    assert text[m.body - 1] == '\n';
  }

  /** A section whose header stood in the replaced body, and nowhere else, is gone. */
  lemma InnerIsLost(text: string, a: Match, put: string, pat: string, b: Match)
    requires Update(text, a, put, pat) && !Mentions(put, pat)
    requires a.body <= b.start < a.end && forall i: nat :: HeaderAt(text, pat, i) ==> i == b.start
    ensures Find(Spliced(text, a, put), pat, 0) == None
  {
    hide Spliced, Find, HeaderAt, Mentions, MatchesAt, OneLine;
    var t := Spliced(text, a, put);
    FindFinds(t, pat, 0);
    if Find(t, pat, 0).Some? {
      HeaderOfMatch(t, pat, Find(t, pat, 0).value);
      NoNewHeader(text, a, put, pat, Find(t, pat, 0).value.start);
    }
  }

  /** A section that is not there does not appear. */
  lemma MissingStaysMissing(text: string, a: Match, put: string, pat: string)
    requires Update(text, a, put, pat) && !Mentions(put, pat) && Find(text, pat, 0) == None
    ensures Find(Spliced(text, a, put), pat, 0) == None
  {
    FindFinds(text, pat, 0);
    hide Spliced, Find, HeaderAt, Mentions, MatchesAt, OneLine;
    var t := Spliced(text, a, put);
    FindFinds(t, pat, 0);
    if Find(t, pat, 0).Some? {
      HeaderOfMatch(t, pat, Find(t, pat, 0).value);
      NoNewHeader(text, a, put, pat, Find(t, pat, 0).value.start);
    }
  }

  // ---- A section that reaches into the updated body ----

  lemma HeadEndsBefore(text: string, a: Match, pat: string, b: Match)
    requires 0 < a.body <= |text| && text[a.body - 1] == '\n' && OneLine(pat, 0, |pat|)
    requires IsMatch(text, pat, b) && b.start < a.body
    ensures b.body <= a.body
  {
    MatchOnOneLine(text, pat, b.start, a.body - 1);
  }

  /** Neither in front of the new body nor in it does a section start. */
  lemma NothingStarts(text: string, a: Match, put: string, from: nat, j: nat)
    requires 0 < a.body <= a.end <= |text| && text[a.body - 1] == '\n' && (a.end == |text| || NextAt(text, a.end))
    requires Plain(put) && from <= j < a.body + |put|
    requires forall k :: from <= k && k + 4 <= a.body ==> !NextAt(text, k)
    ensures !NextAt(Spliced(text, a, put), j)
  {
    var t, h := Spliced(text, a, put), text[..a.body];
    assert t == h + (put + text[a.end..]) && text == h + text[a.body..];
    if j + 4 <= a.body {
      hide NextAt, Plain, Spliced;
      NextInHead(h, put + text[a.end..], j);
      NextInHead(h, text[a.body..], j);
    } else if j + 1 < a.body {
      assert t[a.body - 1] == h[a.body - 1] == '\n';
    } else {
      var h', s, rest := text[..a.body - 1], "\n" + put, text[a.end..];
      assert t == h' + (s + rest);
      assert rest != "" ==> rest[0] == '\n';
      hide NextAt, Plain, Spliced;
      InTail(h', s + rest, "", j + 1 - a.body);
      NothingStartsInside(put, rest, j + 1 - a.body);
    }
  }

  lemma NothingStartsInside(put: string, rest: string, k: nat)
    requires Plain(put) && k <= |put| && (rest != "" ==> rest[0] == '\n')
    ensures !NextAt(("\n" + put) + rest, k)
  {
    var s := "\n" + put;
    var t := s + rest;
    assert !NextAt(s, k);
    assert t[|put|] == s[|put|] == put[|put| - 1] && t[|put| - 1] == s[|put| - 1] == put[|put| - 2];
    assert rest != "" ==> t[|s|] == rest[0];
    if k + 4 <= |s| {
      NextInHead(s, rest, k);
    }
  }

  lemma HeaderLineStays(text: string, a: Match, put: string, pat: string, b: Match)
    requires a.body <= a.end <= |text| && IsMatch(text, pat, b) && b.body <= a.body
    ensures var t := Spliced(text, a, put);
      && b.body <= |t| && MatchesAt(t, pat, b.start) && t[b.body - 1] == '\n' && OneLine(t, b.start + |pat|, b.body - 1)
  {
    var t := Spliced(text, a, put);
    assert forall k :: 0 <= k < a.body ==> t[k] == text[k];
    hide Spliced, HeaderAt, NextAt;
  }

  lemma EndMarkStays(text: string, pa: string, a: Match, put: string)
    requires IsMatch(text, pa, a)
    ensures var t, e := Spliced(text, a, put), a.body + |put|; e == |t| || NextAt(t, e)
  {
    hide NextAt, HeaderAt, MatchesAt;
    SplicedParts(text, a, put);
    InTail(text[..a.body] + put, text[a.end..], "", 0);
    InTail(text[..a.end], text[a.end..], "", 0);
  }

  lemma ReachedMatch(text: string, pa: string, a: Match, put: string, pat: string, b: Match)
    requires Update(text, a, put, pat) && IsMatch(text, pa, a) && Plain(put)
    requires IsMatch(text, pat, b) && b.start < a.body < b.end + 4
    ensures b.body <= a.body
    ensures Find(Spliced(text, a, put), pat, 0) == Some(Match(b.start, b.body, a.body + |put|))
  {
    hide Spliced, Find, HeaderAt, NextAt, Plain, MatchesAt, OneLine;
    var t, e := Spliced(text, a, put), a.body + |put|;
    HeadEndsBefore(text, a, pat, b);
    HeaderLineStays(text, a, put, pat, b);
    EndMarkStays(text, pa, a, put);
    SplicedPut(text, a, put);
    forall i: nat | i < b.start ensures !HeaderAt(t, pat, i) {
      FrontHeader(text, a, put, pat, i);
    }
    forall j | b.body <= j < e ensures !NextAt(t, j) {
      NothingStarts(text, a, put, b.body, j);
    }
    MatchIsUnique(t, pat, Match(b.start, b.body, e));
  }

  lemma ReachedEnd(text: string, pa: string, a: Match, pat: string, b: Match)
    requires IsMatch(text, pa, a) && IsMatch(text, pat, b) && b.body <= a.body < b.end + 4
    ensures b.end == a.end || b.end == a.body - 1
  {
    assert a.body <= b.end < a.end ==> !NextAt(text, b.end);
    assert b.body <= a.end < b.end ==> !NextAt(text, a.end);
    assert b.end < a.body ==> NextAt(text, b.end) && text[a.body - 1] == '\n';
  }

  lemma ReachedBody(text: string, a: Match, put: string, x: nat)
    requires x <= a.body <= a.end <= |text|
    ensures a.body + |put| <= |Spliced(text, a, put)|
    ensures Spliced(text, a, put)[x..a.body + |put|] == text[x..a.body] + put
    ensures text[x..a.end] == text[x..a.body] + text[a.body..a.end]
  {
  }

  /** The body of such a section is another one after an update that changes anything. */
  lemma ReachedChanges(text: string, pa: string, a: Match, put: string, pat: string, b: Match)
    requires Update(text, a, put, pat) && IsMatch(text, pa, a) && Plain(put) && put != text[a.body..a.end]
    requires IsMatch(text, pat, b) && b.start < a.body < b.end + 4
    ensures var t := Spliced(text, a, put); var r := Find(t, pat, 0);
      r.Some? && t[r.value.body..r.value.end] != text[b.body..b.end]
  {
    ReachedMatch(text, pa, a, put, pat, b);
    ReachedEnd(text, pa, a, pat, b);
    hide Spliced, Find, IsMatch, Plain;
    ReachedBody(text, a, put, b.body);
    if b.end == a.end {
      HeadsAndTails(text[b.body..a.body], put, text[b.body..a.body], text[a.body..a.end]);
    } else {
      assert |text[b.body..b.end]| < |text[b.body..a.body]|;
    }
  }

  // ---- The law ----

  /** The section is still found, with the body it had. */
  predicate StaysAs(text: string, text': string, section: string, b: Match)
    requires b.body <= b.end <= |text|
  {
    var r := Find(text', Header(section), 0);
    r.Some? && text'[r.value.body..r.value.end] == text[b.body..b.end]
  }

  lemma UpdateOf(text: string, section: string, a: Match, other: string, put: string)
    requires PlainName(other) && Find(text, Header(section), 0) == Some(a)
    requires |put| > 0 && put[|put| - 1] == '\n'
    ensures Update(text, a, put, Header(other)) && IsMatch(text, Header(section), a)
  {
    FindFinds(text, Header(section), 0);
  }

  /** Two sections that lie apart: updating one leaves the other as it reads, unless the other lies behind and
      is mentioned in the new body. */
  lemma OtherSectionStays(text: string, section: string, a: Match, other: string, b: Match,
                          content: string, stamp: string, writer: string)
    requires PlainName(other) && PlainStamp(stamp) && PlainStamp(writer)
    requires Find(text, Header(section), 0) == Some(a) && Find(text, Header(other), 0) == Some(b) && Apart(a, b)
    requires a.end <= b.start ==> !Mentions(Inserted(text, a, content) + Footer(stamp, writer), Header(other))
    ensures StaysAs(text, ReplaceSection(text, section, content, stamp, writer), other, b)
    ensures ExtractSection(ReplaceSection(text, section, content, stamp, writer), other) == ExtractSection(text, other)
  {
    FindFinds(text, Header(other), 0);
    hide Find, Header, Footer, Inserted, Mentions, PlainStamp, PlainName, IsMatch, Trim, ReplaceSection, Spliced, Update;
    var put := Inserted(text, a, content) + Footer(stamp, writer);
    FooterShape(stamp, writer);
    UpdateOf(text, section, a, other, put);
    ReplaceInserts(text, section, a, content, stamp, writer);
    if b.end + 4 <= a.body {
      EarlierStays(text, a, put, Header(other), b);
    } else {
      LaterStays(text, a, put, Header(other), b);
    }
  }

  lemma PutIsPlain(inserted: string, footer: string)
    requires NoNext("\n" + inserted)
    requires |footer| > 4 && footer[..2] == "\n<" && footer[|footer| - 1] == '\n' && footer[|footer| - 2] == '>'
    requires forall k :: 0 < k < |footer| - 1 ==> footer[k] != '\n'
    ensures Plain(inserted + footer)
  {
    FooterEndsBody("\n" + inserted, footer);
    assert ("\n" + inserted) + footer == "\n" + (inserted + footer);
    hide NoNext;
  }

  /** For content that starts no section and does not mention the other one: an update that changes a section
      leaves another section, whose header occurs once, as it is exactly when the two lie apart. */
  lemma OtherSectionStaysExactly(text: string, section: string, a: Match, other: string, b: Match,
                                 content: string, stamp: string, writer: string)
    requires PlainName(other) && PlainStamp(stamp) && PlainStamp(writer)
    requires Find(text, Header(section), 0) == Some(a) && Find(text, Header(other), 0) == Some(b)
    requires forall i: nat :: HeaderAt(text, Header(other), i) ==> i == b.start
    requires NoNext("\n" + Inserted(text, a, content))
    requires !Mentions(Inserted(text, a, content) + Footer(stamp, writer), Header(other))
    requires Inserted(text, a, content) + Footer(stamp, writer) != text[a.body..a.end]
    ensures Apart(a, b) <==> StaysAs(text, ReplaceSection(text, section, content, stamp, writer), other, b)
  {
    hide Find, Header, Footer, Inserted, Mentions, PlainStamp, PlainName, IsMatch, ReplaceSection, Spliced, Update, HeaderAt, Plain;
    var put := Inserted(text, a, content) + Footer(stamp, writer);
    FooterShape(stamp, writer);
    UpdateOf(text, section, a, other, put);
    if Apart(a, b) {
      OtherSectionStays(text, section, a, other, b, content, stamp, writer);
    } else {
      ReplaceInserts(text, section, a, content, stamp, writer);
      FindFinds(text, Header(other), 0) by {
        NothingBeforeZero(text, Header(other));
      }
      PutIsPlain(Inserted(text, a, content), Footer(stamp, writer));
      if b.start < a.body {
        ReachedChanges(text, Header(section), a, put, Header(other), b);
      } else {
        InnerIsLost(text, a, put, Header(other), b);
      }
    }
  }

  lemma NothingBeforeZero(text: string, pat: string)
    ensures forall j: nat :: j < 0 ==> !HeaderAt(text, pat, j)
  {
  }

  /** A header that follows directly behind the updated header line is lost with its section: the newline that
      would have marked its start belongs to the line above. */
  lemma DirectlyFollowingSectionIsLost(text: string, section: string, a: Match, other: string, b: Match,
                                       content: string, stamp: string, writer: string)
    requires PlainName(other) && PlainStamp(stamp) && PlainStamp(writer)
    requires Find(text, Header(section), 0) == Some(a) && Find(text, Header(other), 0) == Some(b) && b.start == a.body
    requires forall i: nat :: HeaderAt(text, Header(other), i) ==> i == b.start
    requires !Mentions(Inserted(text, a, content) + Footer(stamp, writer), Header(other))
    ensures ExtractSection(ReplaceSection(text, section, content, stamp, writer), other) == ""
  {
    BehindNoMark(text, section, a, other, b);
    hide Find, Header, Footer, Inserted, Mentions, PlainStamp, PlainName, ReplaceSection, Spliced, Update, HeaderAt;
    var put := Inserted(text, a, content) + Footer(stamp, writer);
    FooterShape(stamp, writer);
    UpdateOf(text, section, a, other, put);
    ReplaceInserts(text, section, a, content, stamp, writer);
    InnerIsLost(text, a, put, Header(other), b);
  }

  /** A section that starts where the body of another begins is part of that body. */
  lemma BehindNoMark(text: string, section: string, a: Match, other: string, b: Match)
    requires Find(text, Header(section), 0) == Some(a) && Find(text, Header(other), 0) == Some(b) && b.start == a.body
    ensures b.start < a.end
  {
    hide Find, Header, MatchesAt, NextAt, HeaderAt, OneLine;
    FindFinds(text, Header(other), 0);
    FindFinds(text, Header(section), 0);
    assert MatchesAt(text, Header(other), b.start) && b.start < |text|;
    assert a.body <= a.end && (a.end == |text| || NextAt(text, a.end));
    hide IsMatch;
    HeaderIsNoMark(text, Header(other), b.start);
  }

  lemma HeaderIsNoMark(text: string, pat: string, i: nat)
    requires MatchesAt(text, pat, i) && |pat| > 0 && pat[0] == '#'
    ensures i < |text| && !NextAt(text, i)
  {
    assert Fits(pat[0], text[i + 0]);
  }

  /** A section that is not in the text does not come into it by an update of another one, unless it is mentioned. */
  lemma MissingSectionStaysMissing(text: string, section: string, a: Match, other: string,
                                   content: string, stamp: string, writer: string)
    requires PlainName(other) && PlainStamp(stamp) && PlainStamp(writer)
    requires Find(text, Header(section), 0) == Some(a) && Find(text, Header(other), 0) == None
    requires !Mentions(Inserted(text, a, content) + Footer(stamp, writer), Header(other))
    ensures ExtractSection(ReplaceSection(text, section, content, stamp, writer), other) == ""
  {
    hide Find, Header, Footer, Inserted, Mentions, PlainStamp, PlainName, ReplaceSection, Spliced, Update;
    var put := Inserted(text, a, content) + Footer(stamp, writer);
    FooterShape(stamp, writer);
    UpdateOf(text, section, a, other, put);
    ReplaceInserts(text, section, a, content, stamp, writer);
    MissingStaysMissing(text, a, put, Header(other));
  }
}
