/** The few string operations of Python the model needs, on ASCII. */
module Text {
  import opened Streams

  /** str.isspace() for ASCII */
  predicate IsSpace(c: char) { c == ' ' || '\t' <= c <= '\r' || '\U{1C}' <= c <= '\U{1F}' }

  /** Space, tab, the line breaks among the control characters, and four separators. */
  lemma SpacesAre(c: char)
    ensures IsSpace(c)
            <==> c in [' ', '\t', '\n', '\U{0B}', '\U{0C}', '\r', '\U{1C}', '\U{1D}', '\U{1E}', '\U{1F}']
  {
  }

  function TrimLeft(s: string): string {
    if s != [] && IsSpace(s[0]) then TrimLeft(s[1..]) else s
  }

  function TrimRight(s: string): string {
    if s != [] && IsSpace(s[|s| - 1]) then TrimRight(s[..|s| - 1]) else s
  }

  /** s.strip() */
  function Trim(s: string): string { TrimRight(TrimLeft(s)) }

  predicate Tight(s: string) { s == [] || (!IsSpace(s[0]) && !IsSpace(s[|s| - 1])) }

  lemma {:induction false} TrimRightTight(s: string)
    ensures TrimRight(s) <= s
    ensures TrimRight(s) != [] ==> !IsSpace(TrimRight(s)[|TrimRight(s)| - 1])
  {
    if s != [] && IsSpace(s[|s| - 1]) {
      TrimRightTight(s[..|s| - 1]);
    }
  }

  lemma {:induction false} TrimLeftTight(s: string)
    ensures TrimLeft(s) != [] ==> !IsSpace(TrimLeft(s)[0])
  {
    if s != [] && IsSpace(s[0]) {
      TrimLeftTight(s[1..]);
    }
  }

  lemma TrimTight(s: string)
    ensures Tight(Trim(s))
  {
    TrimLeftTight(s);
    TrimRightTight(TrimLeft(s));
  }

  lemma TrimOfTight(s: string)
    requires Tight(s)
    ensures Trim(s) == s
  {
  }

  /** s.find(c): where c first occurs, or |s| */
  function Find(s: string, c: char): (i: nat)
    ensures i <= |s| && c !in s[..i] && (i < |s| ==> s[i] == c)
  {
    if s == [] || s[0] == c then 0 else 1 + Find(s[1..], c)
  }

  lemma FindUnique(s: string, c: char, i: nat)
    requires i < |s| && s[i] == c && c !in s[..i]
    ensures Find(s, c) == i
  {
  }

  lemma FindAbsent(s: string, c: char)
    requires c !in s
    ensures Find(s, c) == |s|
  {
  }

  /** s.rfind(c): one past where c last occurs, or 0 */
  function AfterLast(s: string, c: char): (i: nat)
    ensures i <= |s| && c !in s[i..] && (i > 0 ==> s[i - 1] == c)
  {
    if s == [] || s[|s| - 1] == c then |s| else AfterLast(s[..|s| - 1], c)
  }

  lemma AfterLastUnique(s: string, c: char, i: nat)
    requires 0 < i <= |s| && s[i - 1] == c && c !in s[i..]
    ensures AfterLast(s, c) == i
  {
  }
}
