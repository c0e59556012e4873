/** What an update and a read of a section do, said of the text itself, without the patterns and functions of the
    model: section names are letters, digits, blanks and underscores here. */
module SectionOutcome {
  import opened JsText
  import opened Prelude
  import opened SectionText

  /** An underscore stands for a blank, and the case of ASCII letters does not matter. */
  predicate SpellsChar(title: char, name: char) {
    || (name == '_' && title == ' ')
    || (name == title && ('0' <= name <= '9' || name == ' '))
    || ('a' <= name <= 'z' && (title == name || title as int == name as int - 32))
    || ('A' <= name <= 'Z' && (title == name || title as int == name as int + 32))
  }

  /** Which characters of a text a character of a name matches: itself, and for ASCII and Latin-1 letters the other case;
      a dot all but the four line ends; the two anchors none. */
  lemma CharacterRules(p: char, c: char)
    ensures var a, b := p as int, c as int;
      Fits(p, c) <==>
        if a == 46 then b !in {10, 13, 8232, 8233}
        else
          && a != 94 && a != 36
          && (a == b
              || (65 <= a <= 90 && b == a + 32) || (97 <= a <= 122 && b == a - 32)
              || (192 <= a <= 222 && a != 215 && b == a + 32) || (224 <= a <= 254 && a != 247 && b == a - 32))
  {
  }

  /** The characters of the names that are covered, by code point. */
  lemma CoveredCharacters(c: char)
    ensures var a := c as int;
      PlainChar(c) <==>
        || a in {32, 33, 34, 35, 37, 38, 39, 44, 45, 46, 47} || 48 <= a <= 62 || 64 <= a <= 90
        || a in {93, 95, 96, 125, 126} || 97 <= a <= 122
        || (160 <= a <= 254 && a != 181)
        || 8208 <= a <= 8231 || 12288 <= a <= 40959 || 44032 <= a <= 55203
  {
  }

  /** The title a name stands for. */
  predicate Spells(title: string, name: string) {
    |title| == |name| && forall k :: 0 <= k < |name| ==> SpellsChar(title[k], name[k])
  }

  lemma SpelledChar(title: char, name: char)
    requires SpellsChar(title, name)
    ensures PlainChar(name) && Fits(if name == '_' then ' ' else name, title)
  {
  }

  lemma HeaderChar(name: string, k: nat)
    requires k < |name|
    ensures |Header(name)| == |name| + 3 && Header(name)[k + 3] == if name[k] == '_' then ' ' else name[k]
  {
  }

  lemma SpelledAt(text: string, i: nat, title: string, name: string, k: nat)
    requires Spells(title, name) && i + 3 + |title| <= |text| && text[i + 3..i + 3 + |title|] == title && k < |name|
    ensures PlainChar(name[k]) && k + 3 < |Header(name)| && Fits(Header(name)[k + 3], text[i + (k + 3)])
  {
    HeaderChar(name, k);
    hide Header, Fits, PlainChar;
    assert text[i + 3..i + 3 + |title|][k] == text[i + (k + 3)];
    hide SpellsChar;
    SpelledChar(title[k], name[k]);
  }

  lemma SpelledHeader(text: string, i: nat, title: string, name: string)
    requires Spells(title, name) && i + 3 + |title| <= |text|
    requires text[i] == '#' && text[i + 1] == '#' && text[i + 2] == ' ' && text[i + 3..i + 3 + |title|] == title
    ensures PlainName(name) && |Header(name)| == 3 + |title| && MatchesAt(text, Header(name), i)
  {
    var pat := Header(name);
    assert |pat| == 3 + |name| && pat[0] == '#' && pat[1] == '#' && pat[2] == ' ';
    hide Fits, PlainChar, Header, SpellsChar;
    forall k | 0 <= k < |name| ensures PlainChar(name[k]) {
      SpelledAt(text, i, title, name, k);
    }
    forall k | 0 <= k < |pat| ensures Fits(pat[k], text[i + k]) {
      if k >= 3 {
        SpelledAt(text, i, title, name, k - 3);
      } else {
        HashFits(pat[k]);
      }
    }
  }

  lemma HashFits(c: char)
    requires c == '#' || c == ' '
    ensures Fits(c, c)
  {
  }

  /** No `## ` anywhere. */
  predicate NoMark(text: string) {
    forall i: nat :: i + 2 < |text| && text[i] == '#' && text[i + 1] == '#' ==> text[i + 2] != ' '
  }

  lemma HeaderStart(text: string, name: string, i: nat)
    requires MatchesAt(text, Header(name), i)
    ensures i + 3 <= |text| && text[i] == '#' && text[i + 1] == '#' && text[i + 2] == ' '
  {
    var pat := Header(name);
    assert pat[0] == '#' && pat[1] == '#' && pat[2] == ' ';
    assert Fits(pat[0], text[i + 0]) && Fits(pat[1], text[i + 1]) && Fits(pat[2], text[i + 2]);
  }

  lemma NoHeaderIn(text: string, n: nat, name: string, i: nat)
    requires n <= |text| && NoMark(text[..n]) && i < n
    requires n < |text| ==> text[n] == '#'
    requires n + 1 < |text| ==> text[n + 1] == '#'
    ensures !MatchesAt(text, Header(name), i)
  {
    hide Header, MatchesAt;
    if MatchesAt(text, Header(name), i) {
      HeaderStart(text, name, i);
    }
  }

  /** A newline and `## ` somewhere at or after the given place, before the other one. */
  predicate SectionStarts(text: string, i: nat) {
    i + 3 < |text| && text[i] == '\n' && text[i + 1] == '#' && text[i + 2] == '#' && text[i + 3] == ' '
  }

  /** The first `## ` of the text is the header of the section; its line ends before `body`, its body at `end`. */
  ghost predicate SectionLies(text: string, start: nat, title: string, body: nat, end: nat) {
    && start + 3 + |title| < body <= end <= |text| && NoMark(text[..start])
    && text[start] == '#' && text[start + 1] == '#' && text[start + 2] == ' ' && text[start + 3..start + 3 + |title|] == title
    && text[body - 1] == '\n' && (forall i :: start + 3 + |title| <= i < body - 1 ==> text[i] != '\n')
    && (forall i :: body <= i < end ==> !SectionStarts(text, i))
    && (end == |text| || SectionStarts(text, end))
  }

  lemma LiesWhereFound(text: string, start: nat, title: string, body: nat, end: nat, name: string)
    requires SectionLies(text, start, title, body, end) && Spells(title, name)
    ensures PlainName(name) && Find(text, Header(name), 0) == Some(Match(start, body, end))
  {
    hide Header, Find, MatchesAt, Spells, NoMark;
    SpelledHeader(text, start, title, name);
    forall i: nat | i < start ensures !HeaderAt(text, Header(name), i) {
      NoHeaderIn(text, start, name, i);
    }
    assert forall i: nat :: SectionStarts(text, i) <==> NextAt(text, i);
    hide NextAt, HeaderAt, SectionStarts;
    MatchIsUnique(text, Header(name), Match(start, body, end));
  }

  // ---- Updating and reading ----

  lemma NoReference(c: string)
    requires '$' !in c
    ensures Inert(c)
  {
    assert forall i: nat :: i < |c| ==> c[i] in c;
  }

  /** Content without a dollar sign takes the place of the body, followed by a comment with stamp and writer; the text
      before it, with the header line, and the text from the next section on stay. What is read is the body, trimmed. */
  lemma UpdateWrites(text: string, start: nat, title: string, body: nat, end: nat, name: string,
                     content: string, stamp: string, writer: string)
    requires SectionLies(text, start, title, body, end) && Spells(title, name)
    requires '$' !in content && '$' !in stamp && '$' !in writer && '\n' !in stamp && '\n' !in writer
    ensures ReplaceSection(text, name, content, stamp, writer)
      == text[..body] + (content + ("\n<!-- " + stamp + " written-by: " + writer + " -->\n")) + text[end..]
    ensures ExtractSection(text, name) == Trim(text[body..end])
  {
    LiesWhereFound(text, start, title, body, end, name);
    NoReference(content);
    assert PlainStamp(stamp) && PlainStamp(writer);
    hide Find, Header, ReplaceSection, Inert, PlainStamp, Trim, SectionLies, Spells;
    ReplaceVerbatim(text, name, Match(start, body, end), content, stamp, writer);
  }

  lemma NoHeaderAnywhere(text: string, name: string)
    requires NoMark(text)
    ensures Find(text, Header(name), 0) == None
  {
    assert text[..|text|] == text;
    forall i: nat ensures !MatchesAt(text, Header(name), i) {
      if i < |text| {
        NoHeaderIn(text, |text|, name, i);
      }
    }
    hide Header, MatchesAt, Find;
    FindFinds(text, Header(name), 0);
  }

  /** In a text without any section the section is appended under its name with blanks for underscores. */
  lemma AppendWrites(text: string, name: string, spaced: string, content: string, stamp: string, writer: string)
    requires NoMark(text)
    requires |spaced| == |name| && forall k :: 0 <= k < |name| ==> spaced[k] == if name[k] == '_' then ' ' else name[k]
    ensures ReplaceSection(text, name, content, stamp, writer)
      == TrimEnd(text) + "\n\n" + ("## " + spaced) + "\n" + content
         + ("\n<!-- " + stamp + " written-by: " + writer + " -->\n")
    ensures ExtractSection(text, name) == ""
  {
    NoHeaderAnywhere(text, name);
    assert Normalize(name) == spaced;
    hide Find, TrimEnd;
  }

  lemma {:induction false} ExpandThrough(a: string, t: string, x: Context)
    requires '$' !in a
    ensures Expand(a + t, x) == a + Expand(t, x)
  {
    if a == "" {
      assert a + t == t;
    } else {
      assert (a + t)[1..] == a[1..] + t;
      ExpandThrough(a[1..], t, x);
    }
  }

  lemma ExpandReference(r: string, b: string, x: Context, put: string)
    requires 2 <= |r| <= 3 && '$' !in b && StepLength(r + b) == |r| && StepText(r + b, x) == put
    ensures Expand(r + b, x) == put + b
  {
    assert (r + b)[|r|..] == b;
    ExpandPlain(b, x);
    hide StepText, StepLength;
  }

  /** What each reference in a content is replaced by: `$&` by the section, `$1` and `$01` by its header line, the
      other two by the text before and after it, `$$` by one dollar sign; `$2` is no reference. */
  lemma ReferencesStandFor(text: string, m: Match, a: string, b: string)
    requires m.start <= m.body <= m.end <= |text| && '$' !in a && '$' !in b
    ensures Inserted(text, m, a + ("$&" + b)) == a + (text[m.start..m.end] + b)
    ensures Inserted(text, m, a + ("$1" + b)) == a + (text[m.start..m.body] + b)
    ensures Inserted(text, m, a + ("$01" + b)) == a + (text[m.start..m.body] + b)
    ensures Inserted(text, m, a + ("$`" + b)) == a + (text[..m.start] + b)
    ensures Inserted(text, m, a + ("$'" + b)) == a + (text[m.end..] + b)
    ensures Inserted(text, m, a + ("$$" + b)) == a + ("$" + b)
    ensures Inserted(text, m, a + ("$2" + b)) == a + ("$2" + b)
  {
    var x := ContextOf(text, m);
    OneReference("$&", a, b, x, text[m.start..m.end]);
    OneReference("$1", a, b, x, text[m.start..m.body]);
    OneReference("$01", a, b, x, text[m.start..m.body]);
    OneReference("$`", a, b, x, text[..m.start]);
    OneReference("$'", a, b, x, text[m.end..]);
    OneReference("$$", a, b, x, "$");
    hide Expand, StepText, StepLength;
    ExpandThrough(a, "$2" + b, x);
    NotAReference(b, x);
  }

  lemma OneReference(r: string, a: string, b: string, x: Context, put: string)
    requires 2 <= |r| <= 3 && '$' !in a && '$' !in b && StepLength(r + b) == |r| && StepText(r + b, x) == put
    ensures Expand(a + (r + b), x) == a + (put + b)
  {
    hide Expand, StepText, StepLength;
    ExpandThrough(a, r + b, x);
    ExpandReference(r, b, x, put);
  }

  lemma NotAReference(b: string, x: Context)
    requires '$' !in b
    ensures Expand("$2" + b, x) == "$2" + b
  {
    assert ("$2" + b)[1..] == "2" + b;
    ExpandPlain("2" + b, x);
    assert ReferenceLength("$2" + b) == 0;
    assert "$2" + b == "$" + ("2" + b);
  }

  lemma ExampleLies(text: string)
    requires text == "## A\nx\n## B"
    ensures SectionLies(text, 0, "A", 5, 6) && Spells("A", "a")
    ensures text[..5] == "## A\n" && text[5..6] == "x" && text[6..] == "\n## B"
  {
    assert text[3..4] == "A";
  }

  /** An update and a read, from end to end. */
  lemma UpdateExample()
    ensures ReplaceSection("## A\nx\n## B", "a", "y", "T", "w") == "## A\n" + ("y" + "\n<!-- T written-by: w -->\n") + "\n## B"
    ensures ExtractSection("## A\nx\n## B", "a") == "x"
  {
    hide SectionLies, Spells, ReplaceSection, ExtractSection, Trim;
    ExampleLies("## A\nx\n## B");
    UpdateWrites("## A\nx\n## B", 0, "A", 5, 6, "a", "y", "T", "w");
    ExampleTexts();
  }

  lemma ExampleTexts()
    ensures "\n<!-- " + "T" + " written-by: " + "w" + " -->\n" == "\n<!-- T written-by: w -->\n"
    ensures Trim("x") == "x"
  {
    TrimTakesEnds("", "x", "");
    assert "" + "x" + "" == "x";
  }
}
