/** The few java.lang.String / Character operations the core relies on, stated on Dafny strings.
    A Dafny char is a Unicode scalar value; Java strings are UTF-16 units, which only differ for
    characters outside the Basic Multilingual Plane (none of them is white space). */
module JavaText {

  /** Character.isWhitespace: the Unicode space, line and paragraph separators except the
      non-breaking ones (U+00A0, U+2007, U+202F), plus U+0009..U+000D and U+001C..U+001F. */
  predicate IsWhitespace(c: char) {
    || ('\t' <= c <= '\r')
    || ('\U{001C}' <= c <= '\U{001F}')
    || c == ' '
    || c == '\U{1680}'
    || ('\U{2000}' <= c <= '\U{2006}')
    || ('\U{2008}' <= c <= '\U{200A}')
    || c == '\U{2028}' || c == '\U{2029}'
    || c == '\U{205F}' || c == '\U{3000}'
  }

  /** String.isBlank: the string is empty or holds only white space. */
  predicate IsBlank(s: string) {
    forall i :: 0 <= i < |s| ==> IsWhitespace(s[i])
  }

  /** String.startsWith. */
  predicate StartsWith(s: string, prefix: string) {
    |prefix| <= |s| && s[..|prefix|] == prefix
  }

  /** How many leading characters String.trim drops: those at or below U+0020. */
  function LeadingTrimmed(s: string): (k: nat)
    ensures k <= |s|
    ensures forall i :: 0 <= i < k ==> s[i] <= ' '
    ensures k < |s| ==> ' ' < s[k]
  {
    if s == [] || ' ' < s[0] then 0 else 1 + LeadingTrimmed(s[1..])
  }

  /** How long a string stays once its trailing characters at or below U+0020 are dropped. */
  function TrailingKept(s: string): (k: nat)
    ensures k <= |s|
    ensures forall i :: k <= i < |s| ==> s[i] <= ' '
    ensures 0 < k ==> ' ' < s[k - 1]
  {
    if s == [] || ' ' < s[|s| - 1] then |s| else TrailingKept(s[..|s| - 1])
  }

  /** s[i..j] is a middle part of `s` outside which every character is at or below U+0020. */
  predicate TrimmedSpan(s: string, i: int, j: int) {
    && 0 <= i <= j <= |s|
    && (forall k :: 0 <= k < i ==> s[k] <= ' ')
    && (forall k :: j <= k < |s| ==> s[k] <= ' ')
  }

  /** String.trim: drops every leading and trailing character at or below U+0020. The end stops
      at the start when nothing above U+0020 follows it. */
  function Trim(s: string): (t: string)
    ensures |t| <= |s|
    ensures forall c :: c in t ==> c in s
    ensures t != [] ==> ' ' < t[0] && ' ' < t[|t| - 1]
    ensures t == [] <==> forall i :: 0 <= i < |s| ==> s[i] <= ' '
  {
    var lead := LeadingTrimmed(s);
    var kept := TrailingKept(s);
    var end := if kept < lead then lead else kept;
    assert forall c :: c in s[lead..end] ==> c in s;
    s[lead..end]
  }

  /** What String.trim keeps is one contiguous middle part of the string: only characters at or
      below U+0020 are dropped, and only from the two ends. */
  lemma TrimIsMiddle(s: string)
    ensures exists i, j :: TrimmedSpan(s, i, j) && Trim(s) == s[i..j]
  {
    var lead := LeadingTrimmed(s);
    var kept := TrailingKept(s);
    var end := if kept < lead then lead else kept;
    assert TrimmedSpan(s, lead, end) && Trim(s) == s[lead..end];
  }

  /** A string that starts and ends above U+0020 is left alone by String.trim. */
  lemma TrimOfTrimmed(t: string)
    requires t != [] ==> ' ' < t[0] && ' ' < t[|t| - 1]
    ensures Trim(t) == t
  {
    if t != [] {
      assert LeadingTrimmed(t) == 0;
      assert t[0..] == t;
      assert TrailingKept(t) == |t|;
    }
  }

  /** String.trim is idempotent. */
  lemma TrimIdempotent(s: string)
    ensures Trim(Trim(s)) == Trim(s)
  {
    TrimOfTrimmed(Trim(s));
  }

  /** A blank string stays blank once trimmed. */
  lemma TrimKeepsBlank(s: string)
    requires IsBlank(s)
    ensures IsBlank(Trim(s))
  {
    var t := Trim(s);
    forall i | 0 <= i < |t| ensures IsWhitespace(t[i]) {
      assert t[i] in t;
    }
  }

  /** The characters whose upper case under String.toUpperCase is longer than one character and
      made only of ASCII letters: sharp s and the Latin ligatures ff, fi, fl, ffi, ffl, long st
      and st. */
  predicate ExpandsToAscii(c: char) {
    c == '\U{00DF}' || ('\U{FB00}' <= c <= '\U{FB06}')
  }

  /** String.toUpperCase on one character that keeps its length, restricted to what decides
      equality with an upper-case ASCII word: 'a'..'z', and the two non-ASCII letters whose upper
      case is ASCII (U+0131 dotless i becomes 'I', U+017F long s becomes 'S'). Every other
      character is kept. Java maps it either to itself or to something holding a non-ASCII
      character; in the second case the character kept here is itself non-ASCII, so neither
      can match an upper-case ASCII word. */
  function UpperChar(c: char): char {
    if 'a' <= c <= 'z' then (c as int - 32) as char
    else if c == '\U{0131}' then 'I'
    else if c == '\U{017F}' then 'S'
    else c
  }

  /** The upper case of one character, with the full special casing of the characters that
      expand into ASCII letters. */
  function UpperOf(c: char): (u: string)
    ensures ExpandsToAscii(c) <==> |u| != 1
    ensures !ExpandsToAscii(c) ==> u == [UpperChar(c)]
    ensures ExpandsToAscii(c) ==> 2 <= |u| <= 3 && forall i :: 0 <= i < |u| ==> 'A' <= u[i] <= 'Z'
    ensures ExpandsToAscii(c) ==> ExpansionPair(u[0], u[1])
  {
    if c == '\U{00DF}' then "SS"
    else if c == '\U{FB00}' then "FF"
    else if c == '\U{FB01}' then "FI"
    else if c == '\U{FB02}' then "FL"
    else if c == '\U{FB03}' then "FFI"
    else if c == '\U{FB04}' then "FFL"
    else if c == '\U{FB05}' || c == '\U{FB06}' then "ST"
    else [UpperChar(c)]
  }

  /** String.toUpperCase in a locale without language-specific rules: the upper case of each
      character in turn. Only sharp s and the ligatures lengthen the string. */
  function UpperCase(s: string): (u: string)
    ensures |s| <= |u| <= 3 * |s|
    ensures (forall i :: 0 <= i < |s| ==> !ExpandsToAscii(s[i])) ==>
      |u| == |s| && forall i :: 0 <= i < |s| ==> u[i] == UpperChar(s[i])
  {
    if s == [] then [] else UpperOf(s[0]) + UpperCase(s[1..])
  }

  /** Java's case-insensitive match of one character against an ASCII capital letter. */
  predicate CapitalOf(c: char, cap: char) {
    c == cap || c as int == cap as int + 32
    || (cap == 'I' && c == '\U{0131}') || (cap == 'S' && c == '\U{017F}')
  }

  /** `s` spells `word` letter by letter, each letter in either case. */
  predicate SpellsIgnoringCase(s: string, word: string) {
    |s| == |word| && forall i :: 0 <= i < |s| ==> CapitalOf(s[i], word[i])
  }

  /** Two consecutive capitals that sharp s or a ligature upper-cases into. */
  predicate ExpansionPair(a: char, b: char) {
    (a == 'S' && (b == 'S' || b == 'T')) || (a == 'F' && (b == 'F' || b == 'I' || b == 'L'))
  }

  /** A word of ASCII capitals that no sharp s or ligature upper-cases into any part of, such as
      "PAID" or "CANCELED". */
  predicate PlainCapitals(word: string) {
    && (forall i :: 0 <= i < |word| ==> 'A' <= word[i] <= 'Z')
    && (forall i, j :: 0 <= i < |word| && 0 <= j < |word| && j == i + 1 ==> !ExpansionPair(word[i], word[j]))
  }

  /** A word of ASCII capitals without S or F is plain: every expansion starts with one. */
  lemma CapitalsWithoutSOrF(word: string)
    requires forall i :: 0 <= i < |word| ==> 'A' <= word[i] <= 'Z' && word[i] != 'S' && word[i] != 'F'
    ensures PlainCapitals(word)
  {
  }

  /** The characters that upper-case to an ASCII capital are exactly its case variants. */
  lemma UpperCharOfCapital(c: char, cap: char)
    requires 'A' <= cap <= 'Z'
    ensures UpperChar(c) == cap <==> CapitalOf(c, cap)
  {
  }

  /** A word of plain capitals stays one without its first letter. */
  lemma PlainCapitalsTail(word: string)
    requires PlainCapitals(word) && word != []
    ensures PlainCapitals(word[1..])
  {
    forall i, j | 0 <= i < |word[1..]| && 0 <= j < |word[1..]| && j == i + 1
      ensures !ExpansionPair(word[1..][i], word[1..][j])
    {
      assert word[1..][i] == word[i + 1] && word[1..][j] == word[j + 1];
    }
  }

  /** Spelling a word is spelling its first letter, then the rest. */
  lemma SpellsByHead(s: string, word: string)
    requires s != [] && word != []
    ensures SpellsIgnoringCase(s, word) <==>
      CapitalOf(s[0], word[0]) && SpellsIgnoringCase(s[1..], word[1..])
  {
    if CapitalOf(s[0], word[0]) && SpellsIgnoringCase(s[1..], word[1..]) {
      forall i | 0 < i < |s| ensures CapitalOf(s[i], word[i]) {
        assert s[i] == s[1..][i - 1] && word[i] == word[1..][i - 1];
      }
    }
  }

  /** A character that expands, such as sharp s, never starts a spelling of plain capitals. */
  lemma ExpandedHeadNeverPlain(s: string, word: string)
    requires PlainCapitals(word) && s != [] && ExpandsToAscii(s[0])
    ensures UpperCase(s) != word && !SpellsIgnoringCase(s, word)
  {
    var head := UpperOf(s[0]);
    var u := head + UpperCase(s[1..]);
    assert UpperCase(s) == u;
    assert u != word by {
      if 2 <= |word| {
        assert u[0] == head[0] && u[1] == head[1];
        assert !ExpansionPair(word[0], word[1]);
      }
    }
    assert !SpellsIgnoringCase(s, word) by {
      if word != [] {
        assert !CapitalOf(s[0], word[0]);
      }
    }
  }

  /** A string upper-cases to a word of plain capitals (such as "PAID" or "CANCELED") exactly
      when it spells that word in any mix of cases. */
  lemma {:induction false} UpperCaseMatches(s: string, word: string)
    requires PlainCapitals(word)
    ensures UpperCase(s) == word <==> SpellsIgnoringCase(s, word)
    decreases |s|
  {
    if s == [] || word == [] {
      return;
    }
    if ExpandsToAscii(s[0]) {
      ExpandedHeadNeverPlain(s, word);
      return;
    }
    PlainCapitalsTail(word);
    UpperCaseMatches(s[1..], word[1..]);
    UpperCharOfCapital(s[0], word[0]);
    SpellsByHead(s, word);
    assert UpperCase(s) == [UpperChar(s[0])] + UpperCase(s[1..]);
    assert word == [word[0]] + word[1..];
  }
}
