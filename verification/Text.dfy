/** Case folding and blank trimming on ASCII text, as strings.ToUpper and strings.TrimSpace do it. */
module Text {

  predicate IsSpace(c: char) {
    c in {' ', '\t', '\n', '\r', '\U{0B}', '\U{0C}'}
  }

  function UpperChar(c: char): char {
    if 'a' <= c <= 'z' then ((c as int - 32) as char) else c
  }

  function Upper(s: string): (u: string)
    ensures |u| == |s|
  {
    seq(|s|, i requires 0 <= i < |s| => UpperChar(s[i]))
  }

  function TrimLeft(s: string): string {
    if s != [] && IsSpace(s[0]) then TrimLeft(s[1..]) else s
  }

  function TrimRight(s: string): string {
    if s != [] && IsSpace(s[|s| - 1]) then TrimRight(s[..|s| - 1]) else s
  }

  function TrimSpace(s: string): string {
    TrimRight(TrimLeft(s))
  }

  /** Text that upper-cases to a word without blanks at its ends has no blanks to trim. */
  lemma TrimKeepsWords(s: string)
    requires s != [] && !IsSpace(Upper(s)[0]) && !IsSpace(Upper(s)[|s| - 1])
    ensures TrimSpace(s) == s
  {
    assert Upper(s)[0] == UpperChar(s[0]) && Upper(s)[|s| - 1] == UpperChar(s[|s| - 1]);
  }

  /** Trimming takes the blanks off both ends and nothing else. */
  lemma TrimTakesTheBlanks(s: string) returns (before: string, after: string)
    ensures s == before + TrimSpace(s) + after
    ensures forall c :: c in before + after ==> c in {' ', '\t', '\n', '\r', '\U{0B}', '\U{0C}'}
    ensures TrimSpace(s) != [] ==> TrimSpace(s)[0] !in {' ', '\t', '\n', '\r', '\U{0B}', '\U{0C}'}
    ensures TrimSpace(s) != [] ==>
      TrimSpace(s)[|TrimSpace(s)| - 1] !in {' ', '\t', '\n', '\r', '\U{0B}', '\U{0C}'}
  {
    before := LeftBlanks(s);
    after := RightBlanks(TrimLeft(s));
    if TrimSpace(s) != [] { assert TrimSpace(s)[0] == TrimLeft(s)[0]; }
  }

  lemma {:induction false} LeftBlanks(s: string) returns (before: string)
    ensures s == before + TrimLeft(s) && forall c :: c in before ==> c in {' ', '\t', '\n', '\r', '\U{0B}', '\U{0C}'}
    ensures TrimLeft(s) != [] ==> !IsSpace(TrimLeft(s)[0])
  {
    before := [];
    if s != [] && IsSpace(s[0]) {
      before := LeftBlanks(s[1..]);
      before := [s[0]] + before;
    }
  }

  lemma {:induction false} RightBlanks(s: string) returns (after: string)
    ensures s == TrimRight(s) + after && forall c :: c in after ==> c in {' ', '\t', '\n', '\r', '\U{0B}', '\U{0C}'}
    ensures TrimRight(s) != [] ==> !IsSpace(TrimRight(s)[|TrimRight(s)| - 1])
  {
    after := [];
    if s != [] && IsSpace(s[|s| - 1]) {
      after := RightBlanks(s[..|s| - 1]);
      after := after + [s[|s| - 1]];
    }
  }

  /** Upper-casing changes the letters a to z and nothing else. */
  lemma UpperLetterByLetter(s: string, i: nat)
    requires i < |s|
    ensures 'a' <= s[i] <= 'z' <==> Upper(s)[i] != s[i]
    ensures 'a' <= s[i] <= 'z' ==>
      'A' <= Upper(s)[i] <= 'Z' && Upper(s)[i] as int - 'A' as int == s[i] as int - 'a' as int
  {
  }
}
