/** The template normaliser: {{name}} becomes {{.name}} unless the name is a keyword. */
module Template {
  import opened Common

  const RESERVED := {"if", "else", "end", "range", "with", "define", "template", "block", "nil", "true", "false"}

  predicate Blank(c: char) { c in {' ', '\t', '\n', '\r', '\U{0C}'} }

  predicate Letter(c: char) { 'a' <= c <= 'z' || 'A' <= c <= 'Z' || c == '_' }

  predicate NameChar(c: char) { Letter(c) || '0' <= c <= '9' }

  predicate Blanks(s: string) { forall i :: 0 <= i < |s| ==> Blank(s[i]) }

  predicate NameChars(s: string) { forall i :: 0 <= i < |s| ==> NameChar(s[i]) }

  function LowerChar(c: char): char { if 'A' <= c <= 'Z' then ((c as int + 32) as char) else c }

  function Lower(s: string): string { seq(|s|, i requires 0 <= i < |s| => LowerChar(s[i])) }

  predicate IsReserved(name: string) { Lower(name) in RESERVED }

  /** Eleven words are keywords, in any mixture of cases. */
  lemma KeywordsExactly(name: string)
    ensures IsReserved(name) <==>
      exists word :: IsCaseOf(name, word)
        && word in {"if", "else", "end", "range", "with", "define", "template", "block", "nil", "true", "false"}
  {
    if IsReserved(name) {
      var word := Lower(name);
      assert IsCaseOf(name, word) by {
        forall i | 0 <= i < |name| ensures word[i] == LowerChar(name[i]) { }
      }
    }
    if exists word :: word in RESERVED && IsCaseOf(name, word) {
      var word :| word in RESERVED && IsCaseOf(name, word);
      LettersOnly(word);
      forall i | 0 <= i < |name| ensures Lower(name)[i] == word[i] { assert 'a' <= word[i] <= 'z'; }
      assert Lower(name) == word;
    }
  }

  /** The word, with some of its letters made capital. */
  predicate IsCaseOf(name: string, word: string) {
    |word| == |name| && forall i :: 0 <= i < |name| ==> name[i] == word[i] || name[i] as int == word[i] as int - 32
  }

  lemma LettersOnly(word: string)
    requires word in RESERVED
    ensures forall i :: 0 <= i < |word| ==> 'a' <= word[i] <= 'z'
  {
  }

  function LeadingBlanks(s: string): (r: string)
    ensures r <= s && Blanks(r)
  {
    if s != [] && Blank(s[0]) then [s[0]] + LeadingBlanks(s[1..]) else []
  }

  function LeadingNameChars(s: string): (r: string)
    ensures r <= s && NameChars(r)
  {
    if s != [] && NameChar(s[0]) then [s[0]] + LeadingNameChars(s[1..]) else []
  }

  /** [a-zA-Z_][a-zA-Z0-9_]*, or nothing. */
  function LeadingName(s: string): (r: string)
    ensures r <= s && NameChars(r) && (r != [] ==> Letter(r[0]))
  {
    if s != [] && Letter(s[0]) then LeadingNameChars(s) else []
  }

  /** One match of the pattern: two braces, blanks, a name, blanks, two braces. */
  datatype Match = Match(before: string, name: string, after: string)
  {
    function Text(): string { "{{" + before + name + after + "}}" }

    predicate Valid() { Blanks(before) && name != [] && Letter(name[0]) && NameChars(name) && Blanks(after) }

    function Rewritten(): string { if IsReserved(name) then Text() else "{{." + name + "}}" }
  }

  /** The match at the front of s, if there is one. */
  function MatchAt(s: string): Option<Match> {
    if |s| < 2 || s[0] != '{' || s[1] != '{' then None
    else
      var before := LeadingBlanks(s[2..]);
      var atName := s[2..][|before|..];
      var name := LeadingName(atName);
      var atAfter := atName[|name|..];
      var after := LeadingBlanks(atAfter);
      var atEnd := atAfter[|after|..];
      if name != [] && "}}" <= atEnd then Some(Match(before, name, after)) else None
  }

  lemma Regroup(a: string, b: string, c: string, d: string, e: string, f: string)
    ensures a + b + c + d + e + f == a + (b + (c + (d + (e + f))))
  { }

  lemma SplitAt(a: string, s: string)
    requires a <= s
    ensures s == a + s[|a|..]
  { }

  lemma DropFront(a: string, b: string)
    ensures (a + b)[|a|..] == b && a <= a + b
  { }

  /** A match is text of s that fits the pattern. */
  lemma MatchFits(s: string)
    ensures MatchAt(s).Some? ==> MatchAt(s).value.Valid() && MatchAt(s).value.Text() <= s
  {
    if MatchAt(s).Some? {
      var m := MatchAt(s).value;
      var atName := s[2..][|m.before|..];
      var atAfter := atName[|m.name|..];
      var atEnd := atAfter[|m.after|..];
      SplitAt("{{", s);
      SplitAt(m.before, s[2..]);
      SplitAt(m.name, atName);
      SplitAt(m.after, atAfter);
      SplitAt("}}", atEnd);
      Regroup("{{", m.before, m.name, m.after, "}}", atEnd[2..]);
    }
  }

  function Normalize(s: string): string {
    if s == [] then []
    else
      MatchFits(s);
      match MatchAt(s)
      case Some(m) => m.Rewritten() + Normalize(s[|m.Text()|..])
      case None => [s[0]] + Normalize(s[1..])
  }

  // ---- The pattern has one reading ----

  lemma {:induction false} LeadingBlanksAre(r: string, rest: string)
    requires Blanks(r) && rest != [] && !Blank(rest[0])
    ensures LeadingBlanks(r + rest) == r
  {
    if r == [] {
      assert r + rest == rest;
    } else {
      assert (r + rest)[1..] == r[1..] + rest;
      LeadingBlanksAre(r[1..], rest);
    }
  }

  lemma {:induction false} LeadingNameCharsAre(r: string, rest: string)
    requires NameChars(r) && rest != [] && !NameChar(rest[0])
    ensures LeadingNameChars(r + rest) == r
  {
    if r == [] {
      assert r + rest == rest;
    } else {
      assert (r + rest)[1..] == r[1..] + rest;
      LeadingNameCharsAre(r[1..], rest);
    }
  }

  lemma ReadingOf(m: Match, tail: string)
    requires m.Valid()
    ensures MatchAt(m.Text() + tail) == Some(m)
  {
    var atEnd := "}}" + tail;
    var atAfter := m.after + atEnd;
    var atName := m.name + atAfter;
    Regroup("{{", m.before, m.name, m.after, "}}", tail);
    NameIsRead(m.name, atAfter);
    LeadingBlanksAre(m.before, atName);
    LeadingBlanksAre(m.after, atEnd);
    DropFront("{{", m.before + atName);
    DropFront(m.before, atName);
    DropFront(m.name, atAfter);
    DropFront(m.after, atEnd);
  }

  lemma NameIsRead(name: string, rest: string)
    requires name != [] && Letter(name[0]) && NameChars(name) && rest != [] && !NameChar(rest[0])
    ensures LeadingName(name + rest) == name
  {
    LeadingNameCharsAre(name, rest);
  }

  /** Text that fits the pattern is matched, and in no other way. */
  lemma FittingTextMatches(s: string, m: Match)
    ensures MatchAt(s) == Some(m) <==> m.Valid() && m.Text() <= s
  {
    MatchFits(s);
    if m.Valid() && m.Text() <= s {
      assert s == m.Text() + s[|m.Text()|..];
      ReadingOf(m, s[|m.Text()|..]);
    }
  }

  lemma ValidLetterByLetter(m: Match)
    ensures m.Valid() <==>
      && (forall i :: 0 <= i < |m.before| ==> m.before[i] in {' ', '\t', '\n', '\r', '\U{0C}'})
      && (forall i :: 0 <= i < |m.after| ==> m.after[i] in {' ', '\t', '\n', '\r', '\U{0C}'})
      && m.name != [] && !('0' <= m.name[0] <= '9')
      && (forall i :: 0 <= i < |m.name| ==>
            'a' <= m.name[i] <= 'z' || 'A' <= m.name[i] <= 'Z' || m.name[i] == '_' || '0' <= m.name[i] <= '9')
  {
  }

  /** The same, letter by letter: blanks, a name that starts with no digit, blanks, in double braces. */
  lemma MatchedExactly(s: string, m: Match)
    ensures MatchAt(s) == Some(m) <==>
      && "{{" + m.before + m.name + m.after + "}}" <= s
      && (forall i :: 0 <= i < |m.before| ==> m.before[i] in {' ', '\t', '\n', '\r', '\U{0C}'})
      && (forall i :: 0 <= i < |m.after| ==> m.after[i] in {' ', '\t', '\n', '\r', '\U{0C}'})
      && m.name != [] && !('0' <= m.name[0] <= '9')
      && (forall i :: 0 <= i < |m.name| ==>
            'a' <= m.name[i] <= 'z' || 'A' <= m.name[i] <= 'Z' || m.name[i] == '_' || '0' <= m.name[i] <= '9')
  {
    FittingTextMatches(s, m);
    ValidLetterByLetter(m);
  }

  /** After its two opening braces a match has no other. */
  lemma BracesOnlyAtTheFront(m: Match)
    requires m.Valid()
    ensures |m.Text()| >= 5 && m.Text()[0] == '{' && m.Text()[1] == '{'
    ensures forall i :: 2 <= i < |m.Text()| ==> m.Text()[i] != '{'
  {
    var inner := m.before + m.name + m.after + "}}";
    assert forall i :: 0 <= i < |inner| ==> inner[i] != '{';
    assert m.Text() == "{{" + inner;
  }

  /** A match in place: where s has braces while it lasts. */
  lemma BracesOf(s: string)
    requires MatchAt(s).Some?
    ensures var n := |MatchAt(s).value.Text()|;
      5 <= n <= |s| && s[0] == '{' && s[1] == '{' && forall i :: 2 <= i < n ==> s[i] != '{'
  {
    MatchFits(s);
    BracesOnlyAtTheFront(MatchAt(s).value);
  }

  /** Matches cannot overlap. */
  lemma MatchesDoNotOverlap(s: string, k: nat)
    requires MatchAt(s).Some? && 0 < k < |MatchAt(s).value.Text()|
    ensures k <= |s| && MatchAt(s[k..]) == None
  {
    BracesOf(s);
    if k == 1 {
      assert s[k..][1] == s[2];
    } else {
      assert s[k..][0] == s[k];
    }
  }

  /** No match goes across two opening braces. */
  lemma MatchStopsBeforeBraces(a: string, b: string)
    requires a != [] && "{{" <= b && MatchAt(a) == None
    ensures MatchAt(a + b) == None
  {
    var t := a + b;
    if MatchAt(t).Some? {
      var m := MatchAt(t).value;
      BracesOf(t);
      MatchFits(t);
      assert t[|a|] == b[0] == '{' && t[|a| + 1] == b[1] == '{';
      assert m.Text() <= a by { assert a == t[..|a|]; }
      FittingTextMatches(a, m);
    }
  }

  lemma {:induction false} NormalizeMatch(m: Match, rest: string)
    requires m.Valid()
    ensures Normalize(m.Text() + rest) == m.Rewritten() + Normalize(rest)
  {
    ReadingOf(m, rest);
    DropFront(m.Text(), rest);
  }

  lemma {:induction false} NormalizeCopy(s: string)
    requires s != [] && MatchAt(s) == None
    ensures Normalize(s) == [s[0]] + Normalize(s[1..])
  { }

  // ---- What is left after normalising ----

  /** No bare name: every match that remains names a keyword. */
  ghost predicate NoBareName(t: string) {
    forall i :: 0 <= i <= |t| ==> KeywordAt(t[i..])
  }

  predicate KeywordAt(t: string) { MatchAt(t).Some? ==> IsReserved(MatchAt(t).value.name) }

  lemma {:induction false} NormalizeFront(x: string)
    requires Normalize(x) != []
    ensures x != []
    ensures MatchAt(x) == None ==> Normalize(x) == [x[0]] + Normalize(x[1..])
    ensures MatchAt(x).Some? ==> "{{" <= Normalize(x)
  {
    if MatchAt(x).Some? {
      var m := MatchAt(x).value;
      assert "{{" <= m.Rewritten();
    }
  }

  predicate NoBrace(s: string) { forall i :: 0 <= i < |s| ==> s[i] != '{' }

  /** As long as the output has no brace, it is the input. */
  lemma {:induction false} PlainOutputIsInput(x: string, p: string)
    requires p <= Normalize(x) && NoBrace(p)
    ensures p <= x
  {
    if p != [] {
      NormalizeFront(x);
      assert p[0] == Normalize(x)[0];
      if MatchAt(x) == None {
        DropFront([x[0]], Normalize(x[1..]));
        assert p[1..] <= Normalize(x[1..]) by {
          assert forall i :: 1 <= i < |p| ==> p[i] == Normalize(x)[1..][i - 1];
        }
        PlainOutputIsInput(x[1..], p[1..]);
        assert p == [x[0]] + p[1..];
      }
    }
  }

  lemma {:induction false} SingleBraceIsCopied(u: string)
    requires |Normalize(u)| >= 2 && Normalize(u)[1] != '{'
    ensures u != [] && Normalize(u) == [u[0]] + Normalize(u[1..])
  {
    NormalizeFront(u);
  }

  lemma TwoInFront(c: char, u: string, rest: string)
    requires u != []
    ensures [c] + ([u[0]] + rest) == [c, u[0]] + rest
    ensures [c] + u == [c, u[0]] + u[1..]
  { }

  /** Copying a character makes no match that was not there. */
  lemma {:induction false} CopyingMakesNoMatch(c: char, u: string, m: Match)
    requires MatchAt([c] + Normalize(u)) == Some(m)
    ensures MatchAt([c] + u) == Some(m)
  {
    BracesOf([c] + Normalize(u));
    assert ([c] + Normalize(u))[2] == Normalize(u)[1];
    SingleBraceIsCopied(u);
    TwoInFront(c, u, Normalize(u[1..]));
    CopiedMatch([c, u[0]], u[1..], m);
  }

  lemma {:induction false} CopiedMatch(two: string, u: string, m: Match)
    requires |two| == 2 && MatchAt(two + Normalize(u)) == Some(m)
    ensures MatchAt(two + u) == Some(m)
  {
    MatchFits(two + Normalize(u));
    BracesOnlyAtTheFront(m);
    PrefixBehindTwo(m.Text(), two, Normalize(u));
    PlainOutputIsInput(u, m.Text()[2..]);
    PrefixBehindTwo(m.Text(), two, u);
    FittingTextMatches(two + u, m);
  }

  lemma PrefixBehindTwo(t: string, two: string, rest: string)
    requires |two| == 2 <= |t|
    ensures t <= two + rest <==> t[..2] == two && t[2..] <= rest
  {
    if t <= two + rest {
      assert forall i :: 0 <= i < |t[2..]| ==> t[2..][i] == (two + rest)[i + 2];
      assert t[..2] == (two + rest)[..2];
    }
    if t[..2] == two && t[2..] <= rest {
      assert t == t[..2] + t[2..];
    }
  }

  /** Nothing matches inside a rewritten variable. */
  lemma DottedIsNotBare(name: string, rest: string, k: nat)
    requires NameChars(name) && k < |name| + 5
    ensures MatchAt((("{{." + name + "}}") + rest)[k..]) == None
  {
    var t := ("{{." + name + "}}") + rest;
    var u := t[k..];
    if k >= 2 {
      assert u[0] == t[k] != '{';
    } else if k == 1 {
      assert u[1] == t[2] == '.';
    } else {
      assert u[2..] == (['.'] + name + "}}") + rest;
      assert u[2..][0] == '.';
    }
  }

  lemma NoBareNameAfter(chunk: string, rest: string)
    requires NoBareName(rest)
    requires forall k :: 0 <= k < |chunk| ==> KeywordAt((chunk + rest)[k..])
    ensures NoBareName(chunk + rest)
  {
    var t := chunk + rest;
    forall i | 0 <= i <= |t| ensures KeywordAt(t[i..]) {
      if |chunk| <= i { assert t[i..] == rest[i - |chunk|..]; }
    }
  }

  lemma ChunkHasNoBareName(m: Match, rest: string, k: nat)
    requires m.Valid() && k < |m.Rewritten()|
    ensures KeywordAt((m.Rewritten() + rest)[k..])
  {
    if IsReserved(m.name) {
      var t := m.Text() + rest;
      ReadingOf(m, rest);
      if k == 0 {
        assert t[0..] == t;
      } else {
        MatchesDoNotOverlap(t, k);
      }
    } else {
      DottedIsNotBare(m.name, rest, k);
    }
  }

  lemma {:induction false} CopyHasNoBareName(c: char, u: string)
    requires MatchAt([c] + u) == None && NoBareName(Normalize(u))
    ensures NoBareName([c] + Normalize(u))
  {
    var t := [c] + Normalize(u);
    if MatchAt(t).Some? { CopyingMakesNoMatch(c, u, MatchAt(t).value); }
    assert t[0..] == t;
    NoBareNameAfter([c], Normalize(u));
  }

  /** The output of the normaliser has no bare name left. */
  lemma {:induction false} NormalizedHasNoBareName(s: string)
    ensures NoBareName(Normalize(s))
  {
    if s != [] {
      MatchFits(s);
      match MatchAt(s) {
        case None =>
          NormalizedHasNoBareName(s[1..]);
          SplitAt([s[0]], s);
          NormalizeCopy(s);
          CopyHasNoBareName(s[0], s[1..]);
        case Some(m) =>
          var rest := Normalize(s[|m.Text()|..]);
          NormalizedHasNoBareName(s[|m.Text()|..]);
          forall k | 0 <= k < |m.Rewritten()| ensures KeywordAt((m.Rewritten() + rest)[k..]) {
            ChunkHasNoBareName(m, rest, k);
          }
          NoBareNameAfter(m.Rewritten(), rest);
      }
    }
  }

  lemma NoBareNameInSuffix(t: string, n: nat)
    requires NoBareName(t) && n <= |t|
    ensures NoBareName(t[n..])
  {
    forall i | 0 <= i <= |t[n..]| ensures KeywordAt(t[n..][i..]) {
      assert t[n..][i..] == t[n + i..];
    }
  }

  lemma {:induction false} NothingBareNothingToDo(t: string)
    requires NoBareName(t)
    ensures Normalize(t) == t
  {
    if t != [] {
      assert t[0..] == t && KeywordAt(t[0..]);
      match MatchAt(t) {
        case None =>
          NormalizeCopy(t);
          NoBareNameInSuffix(t, 1);
          NothingBareNothingToDo(t[1..]);
          SplitAt([t[0]], t);
        case Some(m) =>
          MatchFits(t);
          var rest := t[|m.Text()|..];
          SplitAt(m.Text(), t);
          NormalizeMatch(m, rest);
          NoBareNameInSuffix(t, |m.Text()|);
          NothingBareNothingToDo(rest);
      }
    }
  }

  /** The fixed points of the normaliser are the texts without a bare name. */
  lemma {:induction false} UnchangedExactlyWithoutBareName(t: string)
    ensures Normalize(t) == t <==> NoBareName(t)
  {
    if NoBareName(t) { NothingBareNothingToDo(t); }
    NormalizedHasNoBareName(t);
  }

  /** Normalising twice is normalising once. */
  lemma {:induction false} NormalizeIsIdempotent(s: string)
    ensures Normalize(Normalize(s)) == Normalize(s)
  {
    NormalizedHasNoBareName(s);
    NothingBareNothingToDo(Normalize(s));
  }

  // ---- Each match is rewritten on its own ----

  ghost predicate MatchFree(text: string) { forall k :: 0 <= k <= |text| ==> MatchAt(text[k..]) == None }

  lemma MatchFreeSuffix(text: string)
    requires MatchFree(text) && text != []
    ensures MatchAt(text) == None && MatchFree(text[1..])
  {
    assert text[0..] == text;
    forall k | 0 <= k <= |text[1..]| ensures MatchAt(text[1..][k..]) == None {
      assert text[1..][k..] == text[k + 1..];
    }
  }

  /**
   Text before a match stays, a keyword's match stays, any other match becomes its dotted
   name without blanks, and what follows is normalised by itself.
   */
  lemma {:induction false} RewritesPiecewise(text: string, m: Match, rest: string)
    requires MatchFree(text) && m.Valid()
    ensures var matched := "{{" + m.before + m.name + m.after + "}}";
      var written := if Lower(m.name) in RESERVED then matched else "{{." + m.name + "}}";
      Normalize(text + (matched + rest)) == text + (written + Normalize(rest))
  {
    NormalizeMatch(m, rest);
    BracesOnlyAtTheFront(m);
    MatchFreePrefixStays(text, m.Text() + rest);
  }

  lemma {:induction false} MatchFreePrefixStays(text: string, tail: string)
    requires MatchFree(text) && "{{" <= tail
    ensures Normalize(text + tail) == text + Normalize(tail)
  {
    if text == [] {
      assert text + tail == tail && text + Normalize(tail) == Normalize(tail);
    } else {
      MatchFreeSuffix(text);
      MatchStopsBeforeBraces(text, tail);
      FirstOfTextIsCopied(text, tail);
      MatchFreePrefixStays(text[1..], tail);
      PutBack(text, Normalize(tail));
    }
  }

  lemma {:induction false} FirstOfTextIsCopied(text: string, tail: string)
    requires text != [] && MatchAt(text + tail) == None
    ensures Normalize(text + tail) == [text[0]] + Normalize(text[1..] + tail)
  {
    NormalizeCopy(text + tail);
    DropFirst(text, tail);
  }

  lemma DropFirst(text: string, tail: string)
    requires text != []
    ensures (text + tail)[1..] == text[1..] + tail && (text + tail)[0] == text[0]
  { }

  lemma PutBack(text: string, out: string)
    requires text != []
    ensures [text[0]] + (text[1..] + out) == text + out
  { }
}
