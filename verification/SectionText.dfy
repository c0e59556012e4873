/** Reading and replacing one `## Section` of a Markdown text. The regular expressions of the source
    are spelled out: the leftmost header, matched without regard to case and not tied to the start of
    a line, then the shortest body that ends before a newline and `## `, or at the end of the text. */
module SectionText {
  import opened JsText
  import opened Prelude

  /** Letters of ASCII and Latin-1. */
  function Lower(c: char): char {
    if 'A' <= c <= 'Z' || ('\U{C0}' <= c <= '\U{DE}' && c != '\U{D7}') then c + 32 as char else c
  }

  /** What one character of a pattern matches: a dot anything but a line end, others themselves without regard to
      case. An anchor matches nothing, since `## ` stands before it and a line end behind it. */
  predicate Fits(p: char, c: char) {
    if p == '.' then c !in {'\n', '\r', '\U{2028}', '\U{2029}'}
    else !Anchor(p) && Lower(c) == Lower(p)
  }

  predicate Anchor(c: char) {
    c == '^' || c == '$'
  }

  /** Section names in which each character matches one; underscores stand for spaces. */
  predicate PlainName(name: string) {
    forall k :: 0 <= k < |name| ==> PlainChar(name[k])
  }

  /** Printable ASCII without the other special characters, Latin-1, general punctuation, Chinese, Japanese and Korean. */
  predicate PlainChar(c: char) {
    || (' ' <= c <= '~' && c !in "\\^$*+?()[{|")
    || ('\U{A0}' <= c <= '\U{FE}' && c != '\U{B5}')
    || '\U{2010}' <= c <= '\U{2027}' || '\U{3000}' <= c <= '\U{9FFF}' || '\U{AC00}' <= c <= '\U{D7A3}'
  }

  function Normalize(name: string): (r: string)
    ensures |r| == |name| && (PlainName(name) ==> PlainName(r))
  {
    seq(|name|, k requires 0 <= k < |name| => if name[k] == '_' then ' ' else name[k])
  }

  function Header(section: string): (pat: string)
    ensures |pat| >= 3 && pat[..3] == "## "
    ensures PlainName(section) ==> OneLine(pat, 0, |pat|) && MatchesAt(pat, pat, 0)
  {
    "## " + Normalize(section)
  }

  predicate MatchesAt(text: string, pat: string, i: nat) {
    i + |pat| <= |text| && forall k :: 0 <= k < |pat| ==> Fits(pat[k], text[i + k])
  }

  /** A newline and `## ` end a section body. */
  predicate NextAt(text: string, i: nat) {
    i + 4 <= |text| && text[i] == '\n' && text[i + 1] == '#' && text[i + 2] == '#' && text[i + 3] == ' '
  }

  predicate OneLine(text: string, from: nat, to: nat)
    requires to <= |text|
  {
    forall j :: from <= j < to ==> text[j] != '\n'
  }

  function FindNewline(text: string, i: nat): (r: Option<nat>)
    ensures r.Some? ==> i <= r.value < |text| && text[r.value] == '\n' && OneLine(text, i, r.value)
    ensures r.None? ==> forall j :: i <= j < |text| ==> text[j] != '\n'
    decreases |text| - i
  {
    if i >= |text| then None else if text[i] == '\n' then Some(i) else FindNewline(text, i + 1)
  }

  function BodyEnd(text: string, i: nat): (e: nat)
    requires i <= |text|
    ensures i <= e <= |text| && (e == |text| || NextAt(text, e))
    ensures forall j :: i <= j < e ==> !NextAt(text, j)
    decreases |text| - i
  {
    if i == |text| || NextAt(text, i) then i else BodyEnd(text, i + 1)
  }

  /** The header starts at `start`, the body is text[body..end]. */
  datatype Match = Match(start: nat, body: nat, end: nat)

  function Find(text: string, pat: string, i: nat): (r: Option<Match>)
    ensures r.Some? ==> r.value.start + |pat| < r.value.body <= r.value.end <= |text|
    decreases |text| - i
  {
    if i + |pat| > |text| then None
    else
      var newline := if MatchesAt(text, pat, i) then FindNewline(text, i + |pat|) else None;
      if newline.Some? then Some(Match(i, newline.value + 1, BodyEnd(text, newline.value + 1)))
      else if i == |text| then None
      else Find(text, pat, i + 1)
  }

  function ExtractSection(text: string, section: string): string {
    match Find(text, Header(section), 0)
    case None => ""
    case Some(m) => Trim(text[m.body..m.end])
  }

  // ---- What the leftmost match is, declaratively ----

  predicate HeaderAt(text: string, pat: string, i: nat) {
    MatchesAt(text, pat, i) && exists j :: i + |pat| <= j < |text| && text[j] == '\n'
  }

  ghost predicate IsMatch(text: string, pat: string, m: Match) {
    && m.start + |pat| < m.body <= m.end <= |text|
    && MatchesAt(text, pat, m.start)
    && text[m.body - 1] == '\n' && OneLine(text, m.start + |pat|, m.body - 1)
    && (forall i: nat :: i < m.start ==> !HeaderAt(text, pat, i))
    && (m.end == |text| || NextAt(text, m.end))
    && (forall j :: m.body <= j < m.end ==> !NextAt(text, j))
  }

  lemma {:induction false} FindFinds(text: string, pat: string, i: nat)
    requires forall j: nat :: j < i ==> !HeaderAt(text, pat, j)
    ensures var r := Find(text, pat, i);
      && (r.Some? ==> IsMatch(text, pat, r.value))
      && (r.None? ==> forall j: nat :: !HeaderAt(text, pat, j))
    decreases |text| - i
  {
    if i + |pat| <= |text| {
      var newline := if MatchesAt(text, pat, i) then FindNewline(text, i + |pat|) else None;
      if newline.None? {
        assert !HeaderAt(text, pat, i);
        if i < |text| {
          FindFinds(text, pat, i + 1);
        }
      }
    }
  }

  lemma MatchIsUnique(text: string, pat: string, m: Match)
    requires IsMatch(text, pat, m)
    ensures Find(text, pat, 0) == Some(m)
  {
    FindFinds(text, pat, 0);
    hide MatchesAt, NextAt, Find;
    assert HeaderAt(text, pat, m.start) by {
      assert text[m.body - 1] == '\n';
    }
    var r := Find(text, pat, 0).value;
    assert HeaderAt(text, pat, r.start) by {
      assert text[r.body - 1] == '\n';
    }
    assert r.start == m.start;
    assert r.body == m.body;
  }

  // ---- Replacing ----

  /** The writer comment after a section. */
  function Footer(stamp: string, writer: string): string {
    "\n<!-- " + stamp + " written-by: " + writer + " -->\n"
  }

  /** String.prototype.replace expands `$` references in the replacement; the pattern has one group. */
  datatype Context = Context(before: string, group: string, matched: string, after: string)

  /** The length of the reference at the head of `t`, or 0. */
  function ReferenceLength(t: string): (n: nat)
    ensures n <= |t|
  {
    if |t| < 2 || t[0] != '$' then 0
    else if t[1] in {'$', '&', '`', '\'', '1'} then 2
    else if |t| >= 3 && t[1] == '0' && t[2] == '1' then 3
    else 0
  }

  /** The text that a reference, or else a plain character, stands for. */
  function StepText(t: string, x: Context): string
    requires t != ""
  {
    if ReferenceLength(t) == 0 then [t[0]]
    else
      match t[1]
      case '$' => "$"
      case '&' => x.matched
      case '`' => x.before
      case '\'' => x.after
      case _ => x.group
  }

  function StepLength(t: string): (n: nat)
    requires t != ""
    ensures 1 <= n <= |t|
  {
    if ReferenceLength(t) == 0 then 1 else ReferenceLength(t)
  }

  function Expand(t: string, x: Context): string
    decreases |t|
  {
    if t == "" then "" else StepText(t, x) + Expand(t[StepLength(t)..], x)
  }

  function ContextOf(text: string, m: Match): Context
    requires m.start <= m.body <= m.end <= |text|
  {
    Context(text[..m.start], text[m.start..m.body], text[m.start..m.end], text[m.end..])
  }

  function ReplaceSection(text: string, section: string, content: string, stamp: string, writer: string): string {
    match Find(text, Header(section), 0)
    case Some(m) =>
      text[..m.start] + Expand("$1" + content + Footer(stamp, writer), ContextOf(text, m)) + text[m.end..]
    case None =>
      TrimEnd(text) + "\n\n" + Header(section) + "\n" + content + Footer(stamp, writer)
  }

  // ---- Which contents are inserted as they are ----

  predicate ReferenceAt(c: string, i: nat) {
    && i + 1 < |c| && c[i] == '$'
    && (c[i + 1] in {'$', '&', '`', '\'', '1'} || (c[i + 1] == '0' && i + 2 < |c| && c[i + 2] == '1'))
  }

  /** No `$` that starts a reference; `$5` is harmless, `$1` is not. */
  predicate Inert(c: string) {
    forall i: nat :: i < |c| ==> !ReferenceAt(c, i)
  }

  /** Time stamps and agent names. */
  predicate PlainStamp(s: string) {
    forall k :: 0 <= k < |s| ==> s[k] != '\n' && s[k] != '$'
  }

  lemma {:induction false} ExpandPlain(t: string, x: Context)
    requires '$' !in t
    ensures Expand(t, x) == t
  {
    if t != "" {
      ExpandPlain(t[1..], x);
    }
  }

  /** A tail that starts a new line changes no step before it. */
  lemma StepOfTail(c: string, tail: string, x: Context)
    requires c != "" && |tail| > 0 && tail[0] == '\n'
    ensures StepLength(c + tail) == StepLength(c) && StepText(c + tail, x) == StepText(c, x)
    ensures (c + tail)[StepLength(c)..] == c[StepLength(c)..] + tail
  {
  }

  /** No reference runs into a tail that starts a new line. */
  lemma {:induction false} ExpandTail(c: string, tail: string, x: Context)
    requires |tail| > 0 && tail[0] == '\n' && '$' !in tail
    ensures Expand(c + tail, x) == Expand(c, x) + tail
    decreases |c|
  {
    if c == "" {
      assert c + tail == tail;
      ExpandPlain(tail, x);
    } else {
      hide StepLength, StepText;
      StepOfTail(c, tail, x);
      ExpandTail(c[StepLength(c)..], tail, x);
    }
  }

  lemma InertStep(c: string, x: Context)
    requires c != "" && Inert(c)
    ensures StepLength(c) == 1 && StepText(c, x) == [c[0]] && Inert(c[1..])
  {
    assert !ReferenceAt(c, 0);
    assert forall i: nat :: i < |c[1..]| && ReferenceAt(c[1..], i) ==> ReferenceAt(c, i + 1);
  }

  lemma {:induction false} ExpandOfInert(c: string, x: Context)
    requires Inert(c)
    ensures Expand(c, x) == c
  {
    if c != "" {
      hide StepLength, StepText, Inert;
      InertStep(c, x);
      ExpandOfInert(c[1..], x);
    }
  }

  lemma ExpandHead(tail: string, x: Context)
    ensures Expand("$1" + tail, x) == x.group + Expand(tail, x)
  {
    assert ("$1" + tail)[2..] == tail;
  }

  /** An active text has a reference at its head or behind its first step. */
  lemma ActiveStep(c: string, x: Context)
    requires !Inert(c) && x.before == x.after == "" && x.group == x.matched
    ensures c != ""
    ensures StepText(c, x) == x.matched || |StepText(c, x)| < StepLength(c) || (|StepText(c, x)| == 1 && !Inert(c[StepLength(c)..]))
    ensures |StepText(c, x)| <= StepLength(c) || StepText(c, x) == x.matched
  {
    var i: nat :| i < |c| && ReferenceAt(c, i);
    if i > 0 && ReferenceLength(c) == 0 {
      assert ReferenceAt(c[1..], i - 1);
    }
  }

  /** With a long match and nothing around it, an expanded reference shows in the length. */
  lemma {:induction false} ExpandActive(c: string, x: Context)
    requires !Inert(c) && x.before == x.after == "" && x.group == x.matched
    ensures |Expand(c, x)| >= |x.matched| || |Expand(c, x)| < |c|
    decreases |c|
  {
    ActiveStep(c, x);
    hide StepLength, StepText;
    var rest := c[StepLength(c)..];
    if Inert(rest) {
      ExpandOfInert(rest, x);
    } else {
      ExpandActive(rest, x);
    }
  }

  /** The text with the body of a match exchanged. */
  function Spliced(text: string, m: Match, body: string): string
    requires m.body <= m.end <= |text|
  {
    text[..m.body] + body + text[m.end..]
  }

  /** What an update puts in place of the old body, before its writer comment. */
  function Inserted(text: string, m: Match, content: string): string
    requires m.start <= m.body <= m.end <= |text|
  {
    Expand(content, ContextOf(text, m))
  }

  lemma Substitute(content: string, footer: string, x: Context)
    requires |footer| > 0 && footer[0] == '\n' && '$' !in footer
    ensures Expand("$1" + content + footer, x) == x.group + (Expand(content, x) + footer)
  {
    assert "$1" + content + footer == "$1" + (content + footer);
    hide Expand;
    ExpandTail(content, footer, x);
    ExpandHead(content + footer, x);
  }

  /** Whatever the content, an update exchanges the body of the section and nothing else. */
  lemma ReplaceInserts(text: string, section: string, m: Match, content: string, stamp: string, writer: string)
    requires Find(text, Header(section), 0) == Some(m)
    requires PlainStamp(stamp) && PlainStamp(writer)
    ensures m.start <= m.body <= m.end <= |text|
    ensures ReplaceSection(text, section, content, stamp, writer)
      == Spliced(text, m, Inserted(text, m, content) + Footer(stamp, writer))
  {
    hide Footer, Find, PlainStamp, Header, Spliced, ReplaceSection, ContextOf, Inserted, Expand;
    FooterShape(stamp, writer);
    ReplaceFound(text, section, m, content, stamp, writer);
    SubstituteAround(text, m, content, Footer(stamp, writer));
  }

  lemma SubstituteAround(text: string, m: Match, content: string, footer: string)
    requires m.start <= m.body <= m.end <= |text|
    requires |footer| > 0 && footer[0] == '\n' && '$' !in footer
    ensures text[..m.start] + Expand("$1" + content + footer, ContextOf(text, m)) + text[m.end..]
         == Spliced(text, m, Inserted(text, m, content) + footer)
  {
    hide Expand, Spliced;
    Substitute(content, footer, ContextOf(text, m));
    GroupIsKept(text, m, Expand(content, ContextOf(text, m)) + footer);
  }

  lemma ReplaceFound(text: string, section: string, m: Match, content: string, stamp: string, writer: string)
    requires Find(text, Header(section), 0) == Some(m)
    ensures m.start <= m.body <= m.end <= |text|
    ensures ReplaceSection(text, section, content, stamp, writer)
      == text[..m.start] + Expand("$1" + content + Footer(stamp, writer), ContextOf(text, m)) + text[m.end..]
  {
    hide Footer, Expand, Find, Header;
  }

  lemma GroupIsKept(text: string, m: Match, put: string)
    requires m.start <= m.body <= m.end <= |text|
    ensures text[..m.start] + (text[m.start..m.body] + put) + text[m.end..] == Spliced(text, m, put)
  {
    assert text[..m.start] + (text[m.start..m.body] + put) == text[..m.body] + put;
  }

  /** Inert content goes in as it is, and nothing else changes. */
  lemma ReplaceVerbatim(text: string, section: string, m: Match, content: string, stamp: string, writer: string)
    requires Find(text, Header(section), 0) == Some(m)
    requires Inert(content) && PlainStamp(stamp) && PlainStamp(writer)
    ensures Inserted(text, m, content) == content
    ensures ReplaceSection(text, section, content, stamp, writer) == Spliced(text, m, content + Footer(stamp, writer))
  {
    hide Footer, Expand, Find, Inert, PlainStamp, Header, ReplaceSection;
    ReplaceInserts(text, section, m, content, stamp, writer);
    ExpandOfInert(content, ContextOf(text, m));
  }

  function Repeat(c: char, n: nat): (r: string)
    ensures |r| == n && forall k :: 0 <= k < n ==> r[k] == c
  {
    seq(n, _ => c)
  }

  /** Any other content is altered in some text: a price of $1,200 turns into the section header. */
  lemma ReplaceAlters(section: string, content: string, stamp: string, writer: string) returns (text: string, m: Match)
    requires PlainName(section) && !Inert(content) && PlainStamp(stamp) && PlainStamp(writer)
    ensures Find(text, Header(section), 0) == Some(m)
    ensures ReplaceSection(text, section, content, stamp, writer) != Spliced(text, m, content + Footer(stamp, writer))
  {
    var pat, tail := Header(section), content + Footer(stamp, writer);
    text := pat + Repeat('x', |tail|) + "\n";
    m := Match(0, |text|, |text|);
    assert IsMatch(text, pat, m);
    MatchIsUnique(text, pat, m);
    FooterShape(stamp, writer);
    ReplaceInserts(text, section, m, content, stamp, writer);
    ExpandActive(content, ContextOf(text, m));
  }

  /** New content reaches every text as it was given exactly when it holds no reference. */
  lemma KeptExactlyWhenInert(section: string, content: string, stamp: string, writer: string)
    requires PlainName(section) && PlainStamp(stamp) && PlainStamp(writer)
    ensures Inert(content) <==>
      forall text, m :: Find(text, Header(section), 0) == Some(m) ==>
        ReplaceSection(text, section, content, stamp, writer) == Spliced(text, m, content + Footer(stamp, writer))
  {
    hide ReplaceSection, Find, Footer, Header, Inert, Spliced;
    if Inert(content) {
      forall text, m | Find(text, Header(section), 0) == Some(m)
        ensures m.body <= m.end <= |text| && ReplaceSection(text, section, content, stamp, writer) == Spliced(text, m, content + Footer(stamp, writer))
      {
        ReplaceVerbatim(text, section, m, content, stamp, writer);
      }
    } else {
      var text, m := ReplaceAlters(section, content, stamp, writer);
    }
  }

  // ---- Reading after writing ----

  predicate NoNext(c: string) {
    forall j: nat :: j < |c| ==> !NextAt(c, j)
  }

  lemma MatchedChar(text: string, pat: string, i: nat, k: nat)
    requires MatchesAt(text, pat, i) && OneLine(pat, 0, |pat|) && k < |pat|
    ensures text[i + k] != '\n'
  {
    assert Fits(pat[k], text[i + k]);
  }

  /** A header match does not run across a newline. */
  lemma MatchOnOneLine(text: string, pat: string, i: nat, n: nat)
    requires MatchesAt(text, pat, i) && OneLine(pat, 0, |pat|)
    requires n < |text| && text[n] == '\n'
    ensures n < i || i + |pat| <= n
  {
    if i <= n < i + |pat| {
      MatchedChar(text, pat, i, n - i);
    }
  }

  /** A header match before a newline both texts share is a header match in both. */
  lemma SharedHeader(text: string, text': string, pat: string, i: nat, n: nat)
    requires n < |text| && n < |text'| && text[..n + 1] == text'[..n + 1] && text[n] == '\n'
    requires OneLine(pat, 0, |pat|) && i <= n && MatchesAt(text', pat, i)
    ensures HeaderAt(text, pat, i)
  {
    assert forall k :: 0 <= k <= n ==> text[k] == text[..n + 1][k] == text'[k];
    MatchOnOneLine(text', pat, i, n);
  }

  /** The header of a match is found again when only text behind it changed. */
  lemma HeaderSurvives(text: string, pat: string, m: Match, text': string, end: nat)
    requires IsMatch(text, pat, m) && OneLine(pat, 0, |pat|)
    requires m.body <= end <= |text'| && text'[..m.body] == text[..m.body]
    requires end == |text'| || NextAt(text', end)
    requires forall j :: m.body <= j < end ==> !NextAt(text', j)
    ensures Find(text', pat, 0) == Some(Match(m.start, m.body, end))
  {
    assert forall k :: 0 <= k < m.body ==> text'[k] == text[k];
    forall i: nat | i < m.start ensures !HeaderAt(text', pat, i) {
      if MatchesAt(text', pat, i) {
        SharedHeader(text, text', pat, i, m.body - 1);
      }
    }
    MatchIsUnique(text', pat, Match(m.start, m.body, end));
  }

  /** Neither the new content nor its footer starts a next section. */
  lemma BodyIsFresh(head: string, content: string, footer: string, rest: string, j: nat)
    requires |footer| > 4 && footer[..2] == "\n<" && footer[|footer| - 1] == '\n'
    requires forall k :: 0 < k < |footer| - 1 ==> footer[k] != '\n'
    requires rest == "" || NextAt(rest, 0)
    requires NoNext(content) && |head| <= j < |head| + |content| + |footer|
    ensures !NextAt(head + (content + footer) + rest, j)
  {
    var t, b := head + (content + footer) + rest, |head| + |content|;
    assert forall k :: 0 <= k < |footer| ==> t[b + k] == footer[k];
    assert forall k :: 0 <= k < |content| ==> t[|head| + k] == content[k];
    assert rest != "" ==> t[b + |footer|] == rest[0];
    assert j + 4 <= b ==> !NextAt(content, j - |head|);
    assert j >= b ==> t[j] == footer[j - b];
  }

  lemma FooterShape(stamp: string, writer: string)
    requires PlainStamp(stamp) && PlainStamp(writer)
    ensures var f := Footer(stamp, writer);
      && |f| > 4 && f[..2] == "\n<" && f[|f| - 1] == '\n' && f[|f| - 2] == '>'
      && '$' !in f && forall k :: 0 < k < |f| - 1 ==> f[k] != '\n'
  {
  }

  lemma SplicedMatch(text: string, pat: string, m: Match, content: string, footer: string)
    requires IsMatch(text, pat, m) && OneLine(pat, 0, |pat|) && NoNext(content)
    requires |footer| > 4 && footer[..2] == "\n<" && footer[|footer| - 1] == '\n'
    requires forall k :: 0 < k < |footer| - 1 ==> footer[k] != '\n'
    ensures Find(Spliced(text, m, content + footer), pat, 0) == Some(Match(m.start, m.body, m.body + |content| + |footer|))
  {
    var text', end, rest := Spliced(text, m, content + footer), m.body + |content| + |footer|, text[m.end..];
    forall j | m.body <= j < end ensures !NextAt(text', j) {
      BodyIsFresh(text[..m.body], content, footer, rest, j);
    }
    assert forall k :: 0 <= k < |rest| ==> text'[end + k] == rest[k];
    HeaderSurvives(text, pat, m, text', end);
  }

  /** After an update the section is found between the same header and the same rest. */
  lemma UpdatedMatch(text: string, section: string, m: Match, content: string, stamp: string, writer: string)
    requires PlainName(section) && Find(text, Header(section), 0) == Some(m)
    requires NoNext(Inserted(text, m, content)) && PlainStamp(stamp) && PlainStamp(writer)
    ensures Find(ReplaceSection(text, section, content, stamp, writer), Header(section), 0)
      == Some(Match(m.start, m.body, m.body + |Inserted(text, m, content)| + |Footer(stamp, writer)|))
  {
    hide Find, ReplaceSection, IsMatch, Footer, NoNext, PlainStamp, Inserted;
    FindFinds(text, Header(section), 0);
    FooterShape(stamp, writer);
    ReplaceInserts(text, section, m, content, stamp, writer);
    SplicedMatch(text, Header(section), m, Inserted(text, m, content), Footer(stamp, writer));
  }

  lemma NextInside(head: string, body: string, rest: string, j: nat)
    requires j + 4 <= |body|
    ensures NextAt(head + body + rest, |head| + j) <==> NextAt(body, j)
  {
    var t := head + body + rest;
    assert forall k :: 0 <= k < |body| ==> t[|head| + k] == body[k];
  }

  lemma SplicedParts(text: string, m: Match, body: string, p: nat)
    requires m.body <= m.end <= |text| && p <= |body|
    ensures var t := Spliced(text, m, body);
      && m.body + |body| <= |t| && t[..m.body] == text[..m.body] && t[m.body..m.body + p] == body[..p]
  {
  }

  /** A body that starts a next section itself is cut there. */
  lemma SplicedCut(text: string, pat: string, m: Match, body: string, p: nat)
    requires m.body <= m.end <= |text| && IsMatch(text, pat, m) && OneLine(pat, 0, |pat|)
    requires p + 4 <= |body| && NextAt(body, p) && forall j :: 0 <= j < p ==> !NextAt(body, j)
    ensures Find(Spliced(text, m, body), pat, 0) == Some(Match(m.start, m.body, m.body + p))
    ensures Spliced(text, m, body)[m.body..m.body + p] == body[..p]
  {
    hide IsMatch, MatchesAt, Find, NextAt, OneLine;
    var text' := Spliced(text, m, body);
    NextInside(text[..m.body], body, text[m.end..], p);
    forall j | m.body <= j < m.body + p ensures !NextAt(text', j) {
      NextInside(text[..m.body], body, text[m.end..], j - m.body);
    }
    SplicedParts(text, m, body, p);
    hide Spliced;
    HeaderSurvives(text, pat, m, text', m.body + p);
  }

  lemma FirstNextStays(content: string, footer: string)
    requires !NoNext(content)
    ensures var p := BodyEnd(content, 0);
      p + 4 <= |content| && NextAt(content + footer, p) && forall j :: 0 <= j < p ==> !NextAt(content + footer, j)
  {
    var body, p := content + footer, BodyEnd(content, 0);
    assert forall k :: 0 <= k < |content| ==> body[k] == content[k];
    forall j | 0 <= j < p ensures !NextAt(body, j) {
      assert !NextAt(content, j);
    }
  }

  lemma ExtractFound(text: string, section: string, m: Match)
    requires Find(text, Header(section), 0) == Some(m)
    ensures m.body <= m.end <= |text| && ExtractSection(text, section) == Trim(text[m.body..m.end])
  {
    hide Find, Header, Trim;
  }

  lemma ReadIsCutAt(text: string, section: string, m: Match, body: string, p: nat)
    requires m.body <= m.end <= |text|
    requires IsMatch(text, Header(section), m) && OneLine(Header(section), 0, |Header(section)|)
    requires p + 4 <= |body| && NextAt(body, p) && forall j :: 0 <= j < p ==> !NextAt(body, j)
    requires body[|body| - 2] == '>' && p <= |body| - 2
    ensures ExtractSection(Spliced(text, m, body), section) != Trim(body)
  {
    hide Find, Trim, IsMatch, Header, NextAt, OneLine, Spliced, ExtractSection;
    SplicedCut(text, Header(section), m, body, p);
    ExtractFound(Spliced(text, m, body), section, Match(m.start, m.body, m.body + p));
    TrimIsLonger(body, p, |body| - 2);
  }

  /** The part of the content before its own next section is all that can be read. */
  lemma ReadIsCut(text: string, section: string, m: Match, content: string, footer: string)
    requires IsMatch(text, Header(section), m) && OneLine(Header(section), 0, |Header(section)|) && !NoNext(content)
    requires |footer| > 4 && footer[|footer| - 2] == '>'
    ensures ExtractSection(Spliced(text, m, content + footer), section) != Trim(content + footer)
  {
    assert m.body <= m.end <= |text|;
    hide Find, Trim, IsMatch, Header, NextAt, NoNext, OneLine, Spliced, ExtractSection;
    FirstNextStays(content, footer);
    ReadIsCutAt(text, section, m, content + footer, BodyEnd(content, 0));
  }

  /** A section reads back as what was inserted with its writer comment, trimmed, exactly when that does not
      itself start a next section; inert content is inserted as it is. */
  lemma ReadAfterUpdate(text: string, section: string, m: Match, content: string, stamp: string, writer: string)
    requires PlainName(section) && Find(text, Header(section), 0) == Some(m)
    requires PlainStamp(stamp) && PlainStamp(writer)
    ensures NoNext(Inserted(text, m, content)) <==>
      ExtractSection(ReplaceSection(text, section, content, stamp, writer), section)
        == Trim(Inserted(text, m, content) + Footer(stamp, writer))
    ensures Inert(content) ==> Inserted(text, m, content) == content
  {
    hide Find, ReplaceSection, Trim, IsMatch, Footer, NoNext, Inert, PlainStamp, Inserted;
    var inserted := Inserted(text, m, content);
    var body := inserted + Footer(stamp, writer);
    ReplaceInserts(text, section, m, content, stamp, writer);
    if Inert(content) {
      ReplaceVerbatim(text, section, m, content, stamp, writer);
    }
    FindFinds(text, Header(section), 0);
    FooterShape(stamp, writer);
    if NoNext(inserted) {
      UpdatedMatch(text, section, m, content, stamp, writer);
      assert Spliced(text, m, body)[m.body..m.body + |body|] == body;
    } else {
      ReadIsCut(text, section, m, inserted, Footer(stamp, writer));
    }
  }

  lemma {:induction false} TrimEndKeeps(s: string, q: nat)
    requires q < |s| && !IsWhitespace(s[q])
    ensures |TrimEnd(s)| > q
  {
    if IsWhitespace(Last(s)) {
      TrimEndKeeps(Front(s), q);
    }
  }

  lemma {:induction false} TrimStartShorter(a: string, z: string, q: nat)
    requires |a| < |z| && a <= z && |a| <= q < |z| && !IsWhitespace(z[q])
    ensures |TrimStart(a)| < |TrimStart(z)|
  {
    if a == "" {
      if IsWhitespace(z[0]) {
        TrimStartShorter("", z[1..], q - 1);
      }
    } else if IsWhitespace(a[0]) {
      TrimStartShorter(a[1..], z[1..], q - 1);
    }
  }

  /** Cutting a text before one of its visible characters changes what it trims to. */
  lemma TrimIsLonger(s: string, p: nat, q: nat)
    requires p <= q < |s| && !IsWhitespace(s[q])
    ensures Trim(s[..p]) != Trim(s)
  {
    TrimEndKeeps(s, q);
    TrimStartShorter(TrimEnd(s[..p]), TrimEnd(s), q);
  }

  // ---- Updating twice ----

  /** The text starts with a reference to the matched text. */
  predicate RefersToMatch(c: string) {
    |c| >= 2 && c[0] == '$' && c[1] == '&'
  }

  /** How often the matched text itself is referenced. */
  function MatchRefs(c: string): nat
    decreases |c|
  {
    if c == "" then 0 else MatchRefs(c[StepLength(c)..]) + if RefersToMatch(c) then 1 else 0
  }

  lemma {:induction false} InertHasNoRefs(c: string)
    requires Inert(c)
    ensures MatchRefs(c) == 0
  {
    if c != "" {
      InertStep(c, Context("", "", "", ""));
      assert !ReferenceAt(c, 0);
      InertHasNoRefs(c[1..]);
    }
  }

  predicate SameAround(x: Context, y: Context) {
    x.before == y.before && x.group == y.group && x.after == y.after
  }

  lemma StepTexts(c: string, x: Context, y: Context)
    requires c != "" && SameAround(x, y)
    ensures RefersToMatch(c) ==> StepText(c, x) == x.matched && StepText(c, y) == y.matched
    ensures !RefersToMatch(c) ==> StepText(c, x) == StepText(c, y)
  {
  }

  lemma {:induction false} LongerMatch(c: string, x: Context, y: Context)
    requires SameAround(x, y) && |x.matched| > |y.matched|
    ensures |Expand(c, x)| >= |Expand(c, y)|
    ensures MatchRefs(c) > 0 ==> |Expand(c, x)| > |Expand(c, y)|
    decreases |c|
  {
    if c != "" {
      hide StepLength, StepText, RefersToMatch;
      StepTexts(c, x, y);
      LongerMatch(c[StepLength(c)..], x, y);
    }
  }

  lemma {:induction false} OtherMatch(c: string, x: Context, y: Context)
    requires SameAround(x, y) && |x.matched| == |y.matched| && x.matched != y.matched
    ensures |Expand(c, x)| == |Expand(c, y)|
    ensures Expand(c, x) == Expand(c, y) <==> MatchRefs(c) == 0
    decreases |c|
  {
    if c != "" {
      hide StepLength, StepText, RefersToMatch;
      var rest := c[StepLength(c)..];
      StepTexts(c, x, y);
      OtherMatch(rest, x, y);
      HeadsAndTails(StepText(c, x), Expand(rest, x), StepText(c, y), Expand(rest, y));
    }
  }

  lemma HeadsAndTails(a: string, s: string, b: string, t: string)
    requires |a| == |b|
    ensures a + s == b + t <==> a == b && s == t
  {
    if a + s == b + t {
      assert a == (a + s)[..|a|] && b == (b + t)[..|a|];
      assert s == (a + s)[|a|..] && t == (b + t)[|a|..];
    }
  }

  /** Two expansions that differ in the matched text only agree exactly when it is not referenced. */
  lemma ExpansionsAgree(c: string, x: Context, y: Context)
    requires SameAround(x, y)
    ensures Expand(c, x) == Expand(c, y) <==> MatchRefs(c) == 0 || x.matched == y.matched
  {
    if |x.matched| > |y.matched| {
      LongerMatch(c, x, y);
      NoRefsSame(c, x, y);
    } else if |x.matched| < |y.matched| {
      LongerMatch(c, y, x);
      NoRefsSame(c, x, y);
    } else if x.matched != y.matched {
      OtherMatch(c, x, y);
    }
  }

  lemma {:induction false} NoRefsSame(c: string, x: Context, y: Context)
    requires SameAround(x, y)
    ensures MatchRefs(c) == 0 ==> Expand(c, x) == Expand(c, y)
    decreases |c|
  {
    if c != "" {
      hide StepLength, StepText, RefersToMatch;
      StepTexts(c, x, y);
      NoRefsSame(c[StepLength(c)..], x, y);
    }
  }

  lemma SplicedTwice(text: string, m: Match, n: nat, first: string, a: string, b: string)
    requires m.body <= m.end <= |text| && n <= |first|
    ensures var text' := Spliced(text, m, first); var m' := Match(m.start, m.body, m.body + n);
      && m'.end <= |text'|
      && Spliced(text', m', a) == text[..m.body] + a + (first[n..] + text[m.end..])
      && (Spliced(text', m', a) == Spliced(text, m, b) <==> a + first[n..] == b)
  {
    var text' := Spliced(text, m, first);
    var head, rest := text[..m.body], text[m.end..];
    assert text'[..m.body] == head && text'[m.body + n..] == first[n..] + rest;
    assert head + a + (first[n..] + rest) == head + ((a + first[n..]) + rest);
    assert Spliced(text, m, b) == head + (b + rest);
    HeadsAndTails(head, (a + first[n..]) + rest, head, b + rest);
    SameTail(a + first[n..], b, rest);
  }

  lemma SameTail(a: string, b: string, rest: string)
    ensures a + rest == b + rest <==> a == b
  {
    if a + rest == b + rest {
      assert |a| == |b|;
      HeadsAndTails(a, rest, b, rest);
    }
  }

  /** Updating twice equals only the second update exactly when the first one did not start a section of its
      own, and the second does not refer to the text it replaces or finds the same text as before. */
  lemma LastUpdateWins(text: string, section: string, m: Match, first: string, second: string,
                       stamp1: string, writer1: string, stamp2: string, writer2: string)
    requires PlainName(section) && Find(text, Header(section), 0) == Some(m)
    requires PlainStamp(stamp1) && PlainStamp(writer1) && PlainStamp(stamp2) && PlainStamp(writer2)
    requires Inert(second) || NoNext(Inserted(text, m, first))
    ensures ReplaceSection(ReplaceSection(text, section, first, stamp1, writer1), section, second, stamp2, writer2)
         == ReplaceSection(text, section, second, stamp2, writer2)
      <==> NoNext(Inserted(text, m, first))
           && (MatchRefs(second) == 0 || Inserted(text, m, first) + Footer(stamp1, writer1) == text[m.body..m.end])
  {
    hide Find, ReplaceSection, Footer, NoNext, Inert, PlainStamp, MatchRefs, Inserted, Spliced, IsMatch;
    var body := Inserted(text, m, first) + Footer(stamp1, writer1);
    var text' := ReplaceSection(text, section, first, stamp1, writer1);
    ReplaceInserts(text, section, m, first, stamp1, writer1);
    ReplaceInserts(text, section, m, second, stamp2, writer2);
    if NoNext(Inserted(text, m, first)) {
      var m' := Match(m.start, m.body, m.body + |body|);
      UpdatedMatch(text, section, m, first, stamp1, writer1);
      ReplaceInserts(text', section, m', second, stamp2, writer2);
      SecondUpdate(text, m, body, second, Footer(stamp2, writer2));
    } else {
      var p := BodyEnd(Inserted(text, m, first), 0);
      var m' := Match(m.start, m.body, m.body + p);
      FindFinds(text, Header(section), 0);
      FooterShape(stamp1, writer1);
      FirstNextStays(Inserted(text, m, first), Footer(stamp1, writer1));
      SplicedCut(text, Header(section), m, body, p);
      ReplaceVerbatim(text, section, m, second, stamp2, writer2);
      ReplaceVerbatim(text', section, m', second, stamp2, writer2);
      SplicedTwice(text, m, p, body, second + Footer(stamp2, writer2), second + Footer(stamp2, writer2));
    }
  }

  /** The second update, when the first body was taken whole. */
  lemma SecondUpdate(text: string, m: Match, body: string, second: string, footer: string)
    requires m.start <= m.body <= m.end <= |text|
    ensures var text', m' := Spliced(text, m, body), Match(m.start, m.body, m.body + |body|);
      && m'.end <= |text'|
      && (Spliced(text', m', Inserted(text', m', second) + footer) == Spliced(text, m, Inserted(text, m, second) + footer)
          <==> MatchRefs(second) == 0 || body == text[m.body..m.end])
  {
    hide MatchRefs, Expand;
    var text', m' := Spliced(text, m, body), Match(m.start, m.body, m.body + |body|);
    ContextsAfter(text, m, body);
    var x, y := ContextOf(text', m'), ContextOf(text, m);
    ExpansionsAgree(second, x, y);
    hide Spliced, ContextOf;
    SplicedTwice(text, m, |body|, body, Expand(second, x) + footer, Expand(second, y) + footer);
    assert Expand(second, x) + footer + body[|body|..] == Expand(second, x) + footer;
    SameTail(Expand(second, x), Expand(second, y), footer);
  }

  lemma ContextsAfter(text: string, m: Match, body: string)
    requires m.start <= m.body <= m.end <= |text|
    ensures var text', m' := Spliced(text, m, body), Match(m.start, m.body, m.body + |body|);
      && m'.end <= |text'|
      && SameAround(ContextOf(text', m'), ContextOf(text, m))
      && (ContextOf(text', m').matched == ContextOf(text, m).matched <==> body == text[m.body..m.end])
  {
    var text', m' := Spliced(text, m, body), Match(m.start, m.body, m.body + |body|);
    assert text'[..m.body] == text[..m.body] && text'[m'.end..] == text[m.end..] && text'[m.body..m'.end] == body;
    assert text'[m.start..m.body] == text'[..m.body][m.start..] == text[m.start..m.body];
    assert text'[..m.start] == text'[..m.body][..m.start] == text[..m.start];
    assert text'[m.start..m'.end] == text[m.start..m.body] + body;
    assert text[m.start..m.end] == text[m.start..m.body] + text[m.body..m.end];
    HeadsAndTails(text[m.start..m.body], body, text[m.start..m.body], text[m.body..m.end]);
  }

  // ---- A section that is not there is appended ----

  ghost predicate Mentions(text: string, pat: string) {
    exists i: nat :: MatchesAt(text, pat, i)
  }

  /** The first mention of a header. */
  lemma FirstMention(text: string, pat: string, from: nat) returns (i: nat)
    requires Mentions(text, pat) && forall j: nat :: j < from ==> !MatchesAt(text, pat, j)
    ensures MatchesAt(text, pat, i) && forall j: nat :: j < i ==> !MatchesAt(text, pat, j)
    decreases |text| - from
  {
    if MatchesAt(text, pat, from) {
      i := from;
    } else {
      assert from < |text|;
      i := FirstMention(text, pat, from + 1);
    }
  }

  lemma MatchStaysInside(base: string, rest: string, pat: string, i: nat)
    requires OneLine(pat, 0, |pat|) && |pat| > 0 && i <= |base|
    requires MatchesAt(base + "\n" + rest, pat, i)
    ensures MatchesAt(base, pat, i)
  {
    var text := base + "\n" + rest;
    MatchOnOneLine(text, pat, i, |base|);
    assert forall k :: 0 <= k < |base| ==> text[k] == base[k];
  }

  lemma NoEarlierMatch(base: string, pat: string, tail: string, i: nat)
    requires OneLine(pat, 0, |pat|) && |pat| >= 3 && !Mentions(base, pat) && i < |base| + 2
    ensures !MatchesAt(base + "\n\n" + tail, pat, i)
  {
    var text := base + "\n\n" + tail;
    assert text == base + "\n" + ("\n" + tail);
    if MatchesAt(text, pat, i) {
      MatchOnOneLine(text, pat, i, |base| + 1);
      MatchStaysInside(base, "\n" + tail, pat, i);
    }
  }

  /** The text with the section appended. */
  function Appended(base: string, pat: string, body: string): string {
    base + "\n\n" + (pat + "\n" + body)
  }

  lemma AppendedParts(base: string, pat: string, body: string)
    ensures var text := Appended(base, pat, body); var b := |base| + 3 + |pat|;
      && |text| == b + |body| && text[b - 1] == '\n'
      && (forall k :: 0 <= k < |pat| ==> text[|base| + 2 + k] == pat[k])
      && (forall k :: 0 <= k < |body| ==> text[b + k] == body[k])
  {
  }

  lemma AppendedNext(base: string, pat: string, body: string, j: nat)
    ensures NextAt(Appended(base, pat, body), |base| + 3 + |pat| + j) <==> NextAt(body, j)
  {
    hide Appended;
    AppendedParts(base, pat, body);
  }

  lemma AppendedHeader(base: string, pat: string, body: string)
    requires MatchesAt(pat, pat, 0)
    ensures var text := Appended(base, pat, body); var start, b := |base| + 2, |base| + 3 + |pat|;
      && |text| == b + |body| && text[b - 1] == '\n'
      && MatchesAt(text, pat, start) && OneLine(text, start + |pat|, b - 1)
  {
    hide Appended;
    AppendedParts(base, pat, body);
  }

  lemma AppendedIsFirst(base: string, pat: string, body: string, i: nat)
    requires OneLine(pat, 0, |pat|) && |pat| >= 3 && !Mentions(base, pat) && i < |base| + 2
    ensures !HeaderAt(Appended(base, pat, body), pat, i)
  {
    hide MatchesAt, Mentions;
    NoEarlierMatch(base, pat, pat + "\n" + body, i);
  }

  /** The leftmost match in that text, when the old text does not mention the section. */
  lemma AppendedMatch(base: string, pat: string, body: string, n: nat)
    requires OneLine(pat, 0, |pat|) && MatchesAt(pat, pat, 0) && |pat| >= 3 && !Mentions(base, pat)
    requires n <= |body| && (n == |body| || NextAt(body, n)) && forall j: nat :: j < n ==> !NextAt(body, j)
    ensures var b := |base| + 3 + |pat|;
      Find(Appended(base, pat, body), pat, 0) == Some(Match(|base| + 2, b, b + n))
  {
    hide HeaderAt, NextAt, Find, Mentions, Appended, MatchesAt, OneLine;
    var text, start, b := Appended(base, pat, body), |base| + 2, |base| + 3 + |pat|;
    AppendedHeader(base, pat, body);
    forall i: nat | i < start ensures !HeaderAt(text, pat, i) {
      AppendedIsFirst(base, pat, body, i);
    }
    AppendedNext(base, pat, body, n);
    forall j | b <= j < b + n ensures !NextAt(text, j) {
      AppendedNext(base, pat, body, j - b);
    }
    MatchIsUnique(text, pat, Match(start, b, b + n));
  }

  lemma AppendedSlice(base: string, pat: string, body: string, n: nat)
    requires n <= |body|
    ensures var text := Appended(base, pat, body); var b := |base| + 3 + |pat|;
      b + n <= |text| && text[b..b + n] == body[..n]
  {
    hide Appended;
    AppendedParts(base, pat, body);
  }

  lemma FooterEndsBody(content: string, footer: string)
    requires |footer| > 4 && footer[..2] == "\n<" && footer[|footer| - 1] == '\n' && NoNext(content)
    requires forall k :: 0 < k < |footer| - 1 ==> footer[k] != '\n'
    ensures NoNext(content + footer)
  {
    forall j: nat | j < |content + footer| ensures !NextAt(content + footer, j) {
      BodyIsFresh("", content, footer, "", j);
      assert "" + (content + footer) + "" == content + footer;
    }
  }

  /** What is read of an appended section: all of it, or the part before its own next section. */
  lemma ReadAppended(base: string, section: string, body: string, n: nat)
    requires PlainName(section) && !Mentions(base, Header(section))
    requires n <= |body| && (n == |body| || NextAt(body, n)) && forall j: nat :: j < n ==> !NextAt(body, j)
    ensures ExtractSection(Appended(base, Header(section), body), section) == Trim(body[..n])
  {
    hide Find, Header, Trim, Appended, Mentions, NextAt, OneLine, ExtractSection, PlainName;
    var pat := Header(section);
    var b := |base| + 3 + |pat|;
    AppendedMatch(base, pat, body, n);
    AppendedSlice(base, pat, body, n);
    ExtractFound(Appended(base, pat, body), section, Match(|base| + 2, b, b + n));
  }

  /** When the last line of the old text already mentions the header, that line becomes the header
      and the appended section is behind its (empty) body. */
  lemma ShadowedMatch(base: string, pat: string, rest: string, i: nat)
    requires OneLine(pat, 0, |pat|) && |pat| >= 3 && pat[..3] == "## " && NextAt(rest, 0)
    requires MatchesAt(base, pat, i) && forall j: nat :: j < i ==> !MatchesAt(base, pat, j)
    requires OneLine(base, i + |pat|, |base|)
    ensures Find(base + "\n" + rest, pat, 0) == Some(Match(i, |base| + 1, |base| + 1))
  {
    var text := base + "\n" + rest;
    assert forall k :: 0 <= k < |base| ==> text[k] == base[k];
    assert forall k :: 0 <= k < |rest| ==> text[|base| + 1 + k] == rest[k];
    forall j: nat | j < i ensures !MatchesAt(text, pat, j) {
      if MatchesAt(text, pat, j) {
        MatchStaysInside(base, rest, pat, j);
      }
    }
    MatchIsUnique(text, pat, Match(i, |base| + 1, |base| + 1));
  }

  lemma AppendedBehindLine(base: string, pat: string, body: string)
    requires |pat| >= 3 && pat[..3] == "## "
    ensures Appended(base, pat, body) == base + "\n" + ("\n" + (pat + "\n" + body))
    ensures NextAt("\n" + (pat + "\n" + body), 0)
  {
    var rest := "\n" + (pat + "\n" + body);
    assert rest[1..4] == pat[..3];
  }

  lemma ReadShadowed(base: string, section: string, content: string, footer: string, i: nat)
    requires PlainName(section) && MatchesAt(base, Header(section), i)
    requires forall j: nat :: j < i ==> !MatchesAt(base, Header(section), j)
    requires OneLine(base, i + |Header(section)|, |base|) && |footer| > 4 && footer[|footer| - 2] == '>'
    ensures ExtractSection(Appended(base, Header(section), content + footer), section) != Trim(content + footer)
  {
    hide Find, Header, Trim, MatchesAt, NextAt, OneLine, Appended, ExtractSection, PlainName;
    var pat, body := Header(section), content + footer;
    AppendedBehindLine(base, pat, body);
    ShadowedMatch(base, pat, "\n" + (pat + "\n" + body), i);
    var text := Appended(base, pat, body);
    ExtractFound(text, section, Match(i, |base| + 1, |base| + 1));
    assert text[|base| + 1..|base| + 1] == body[..0];
    TrimIsLonger(body, 0, |body| - 2);
  }

  /** Where no header match is found, a mention of it stands on the unterminated last line. */
  lemma UnfinishedLine(text: string, pat: string, i: nat)
    requires Find(text, pat, 0) == None && MatchesAt(TrimEnd(text), pat, i)
    ensures OneLine(TrimEnd(text), i + |pat|, |TrimEnd(text)|)
  {
    FindFinds(text, pat, 0);
    assert MatchesAt(text, pat, i) && !HeaderAt(text, pat, i);
  }

  lemma AppendIsAppended(text: string, section: string, content: string, stamp: string, writer: string)
    requires Find(text, Header(section), 0) == None
    ensures ReplaceSection(text, section, content, stamp, writer)
         == Appended(TrimEnd(text), Header(section), content + Footer(stamp, writer))
  {
    hide Find, Header, Footer, TrimEnd;
    var base, pat, footer := TrimEnd(text), Header(section), Footer(stamp, writer);
    assert base + "\n\n" + pat + "\n" + content + footer == base + "\n\n" + (pat + "\n" + (content + footer));
  }

  /** An appended section reads back exactly when the trimmed text did not already mention its header
      in an unfinished last line and the content does not itself start a next section. */
  lemma ReadAfterAppend(text: string, section: string, content: string, stamp: string, writer: string)
    requires PlainName(section) && Find(text, Header(section), 0) == None
    requires PlainStamp(stamp) && PlainStamp(writer)
    ensures !Mentions(TrimEnd(text), Header(section)) && NoNext(content) <==>
      ExtractSection(ReplaceSection(text, section, content, stamp, writer), section) == Trim(content + Footer(stamp, writer))
  {
    hide Find, Trim, NoNext, Footer, PlainStamp, Header, Mentions, MatchesAt, TrimEnd, OneLine, ReplaceSection, Appended, ExtractSection;
    var base, pat, footer := TrimEnd(text), Header(section), Footer(stamp, writer);
    FooterShape(stamp, writer);
    AppendIsAppended(text, section, content, stamp, writer);
    if Mentions(base, pat) {
      var i := FirstMention(base, pat, 0);
      UnfinishedLine(text, pat, i);
      ReadShadowed(base, section, content, footer, i);
    } else {
      ReadNotShadowed(base, section, content, footer);
    }
  }

  lemma ReadNotShadowed(base: string, section: string, content: string, footer: string)
    requires PlainName(section) && !Mentions(base, Header(section))
    requires |footer| > 4 && footer[..2] == "\n<" && footer[|footer| - 1] == '\n' && footer[|footer| - 2] == '>'
    requires forall k :: 0 < k < |footer| - 1 ==> footer[k] != '\n'
    ensures NoNext(content) <==>
      ExtractSection(Appended(base, Header(section), content + footer), section) == Trim(content + footer)
  {
    hide Find, Header, Trim, Appended, Mentions, OneLine, ExtractSection, PlainName;
    var body := content + footer;
    if NoNext(content) {
      FooterEndsBody(content, footer);
      ReadAppended(base, section, body, |body|);
      assert body[..|body|] == body;
    } else {
      FirstNextStays(content, footer);
      ReadAppended(base, section, body, BodyEnd(content, 0));
      TrimIsLonger(body, BodyEnd(content, 0), |body| - 2);
    }
  }

  // ---- Names that are never found ----

  /** A section with `$` or `^` in its name is never found, its own header included: each update of it appends a
      further copy, and reading it gives nothing. */
  lemma AnchoredNameIsNeverFound(text: string, section: string, content: string, stamp: string, writer: string)
    requires forall k :: 0 <= k < |section| ==> PlainChar(section[k]) || section[k] == '^' || section[k] == '$'
    requires exists k :: 0 <= k < |section| && (section[k] == '^' || section[k] == '$')
    ensures ReplaceSection(text, section, content, stamp, writer)
         == Appended(TrimEnd(text), Header(section), content + Footer(stamp, writer))
    ensures ExtractSection(ReplaceSection(text, section, content, stamp, writer), section) == ""
  {
    AnchoredHeader(text, section);
    AppendIsAppended(text, section, content, stamp, writer);
    hide Find, Header, Footer, TrimEnd, ReplaceSection, Appended;
    AnchoredHeader(ReplaceSection(text, section, content, stamp, writer), section);
  }

  lemma AnchoredHeader(text: string, section: string)
    requires exists k :: 0 <= k < |section| && (section[k] == '^' || section[k] == '$')
    ensures Find(text, Header(section), 0) == None
  {
    var pat := Header(section);
    var k :| 0 <= k < |section| && (section[k] == '^' || section[k] == '$');
    assert pat[3 + k] == section[k];
    FindFinds(text, pat, 0);
    hide Find;
    forall i: nat ensures !MatchesAt(text, pat, i) {
      assert i + |pat| <= |text| ==> !Fits(pat[3 + k], text[i + (3 + k)]);
    }
  }
}
