/**
 * Username derivation (`createUserName` and its inner `clean` in
 * src/utils/auth.utilities.ts): first name, a dot, last name, then the last
 * three characters of the national id.
 *
 * `clean` first applies Unicode NFD normalisation; this model works on text
 * already in that form (precomposed letters are not decomposed here).
 */
module UserNames {

  /** The combining diacritical marks, U+0300 to U+036F. */
  predicate IsCombiningMark(c: char) { 0x300 <= c as int <= 0x36F }

  predicate IsUpperAscii(c: char) { 'A' <= c <= 'Z' }

  /** The characters `String.prototype.trim` removes. */
  predicate IsWhitespace(c: char) {
    var k := c as int;
    k == 0x09 || k == 0x0A || k == 0x0B || k == 0x0C || k == 0x0D || k == 0x20
    || k == 0xA0 || k == 0x1680 || (0x2000 <= k <= 0x200A) || k == 0x2028 || k == 0x2029
    || k == 0x202F || k == 0x205F || k == 0x3000 || k == 0xFEFF
  }

  const SmallEnye: char := '\U{00F1}'
  const CapitalEnye: char := '\U{00D1}'

  /** `replace(/[̀-ͯ]/g, '')`. */
  function StripMarks(s: string): (r: string)
    ensures |r| <= |s|
    ensures forall i :: 0 <= i < |r| ==> !IsCombiningMark(r[i])
    ensures (forall i :: 0 <= i < |s| ==> !IsCombiningMark(s[i])) ==> r == s
    ensures |s| == 1 ==> r == if IsCombiningMark(s[0]) then [] else s
  {
    if s == [] then []
    else if IsCombiningMark(s[0]) then StripMarks(s[1..])
    else [s[0]] + StripMarks(s[1..])
  }

  /**
   * Marks are dropped one character at a time: stripping distributes over
   * concatenation, so every other character is kept, in order.
   */
  lemma {:induction false} StripMarksAppend(a: string, b: string)
    ensures StripMarks(a + b) == StripMarks(a) + StripMarks(b)
    decreases |a|
  {
    if a == [] {
      assert a + b == b;
    } else {
      var c, rest := a[0], a[1..];
      assert a + b == [c] + (rest + b);
      StripMarksAppend(rest, b);
      if !IsCombiningMark(c) {
        assert [c] + (StripMarks(rest) + StripMarks(b)) == ([c] + StripMarks(rest)) + StripMarks(b);
      }
    }
  }

  /** `replace(/<from>/g, <to>)` for a one-character pattern. */
  function ReplaceAll(s: string, from: char, to: char): (r: string)
    ensures |r| == |s|
    ensures forall i :: 0 <= i < |s| ==> r[i] == if s[i] == from then to else s[i]
  {
    if s == [] then [] else [if s[0] == from then to else s[0]] + ReplaceAll(s[1..], from, to)
  }

  function LowerChar(c: char): char {
    if IsUpperAscii(c) then (c as int + 32) as char else c
  }

  /** `toLowerCase()` on the ASCII letters. */
  function ToLower(s: string): (r: string)
    ensures |r| == |s|
    ensures forall i :: 0 <= i < |s| ==> r[i] == LowerChar(s[i])
  {
    if s == [] then [] else [LowerChar(s[0])] + ToLower(s[1..])
  }

  /** `split(' ')[0]`: the text before the first space. */
  function FirstToken(s: string): (r: string)
    ensures |r| <= |s| && r == s[..|r|]
    ensures ' ' !in r
    ensures |r| == |s| || s[|r|] == ' '
  {
    if s == [] || s[0] == ' ' then [] else [s[0]] + FirstToken(s[1..])
  }

  function TrimStart(s: string): (r: string)
    ensures |r| <= |s| && r == s[|s| - |r|..]
    ensures forall i :: 0 <= i < |s| - |r| ==> IsWhitespace(s[i])
    ensures r == [] || !IsWhitespace(r[0])
  {
    if s != [] && IsWhitespace(s[0]) then TrimStart(s[1..]) else s
  }

  function TrimEnd(s: string): (r: string)
    ensures |r| <= |s| && r == s[..|r|]
    ensures forall i :: |r| <= i < |s| ==> IsWhitespace(s[i])
    ensures r == [] || !IsWhitespace(r[|r| - 1])
  {
    if s != [] && IsWhitespace(s[|s| - 1]) then TrimEnd(s[..|s| - 1]) else s
  }

  /** `trim()`: the text between the leading and the trailing whitespace. */
  function Trim(s: string): (r: string)
    ensures |r| <= |s|
    ensures r == [] || (!IsWhitespace(r[0]) && !IsWhitespace(r[|r| - 1]))
    // r is the slice of s after the leading whitespace and before the trailing whitespace
    ensures |r| <= |TrimStart(s)| && r == TrimStart(s)[..|r|]
    ensures forall i :: 0 <= i < |s| - |TrimStart(s)| ==> IsWhitespace(s[i])
    ensures forall i :: |r| <= i < |TrimStart(s)| ==> IsWhitespace(TrimStart(s)[i])
  {
    TrimEnd(TrimStart(s))
  }

  /** No upper-case ASCII letter, no combining mark and no enye. */
  predicate Tidy(s: string) {
    forall i :: 0 <= i < |s| ==>
      !IsUpperAscii(s[i]) && !IsCombiningMark(s[i]) && s[i] != SmallEnye && s[i] != CapitalEnye
  }

  /** Both enyes become `n`; every other character is kept. */
  function Unenye(c: char): char {
    if c == SmallEnye || c == CapitalEnye then 'n' else c
  }

  /** The character-wise steps of `clean`: drop marks, replace both enyes, lower-case. */
  function Lowered(s: string): (r: string)
    ensures |r| <= |s|
    ensures Tidy(r)
  {
    var noCapital := ReplaceAll(ReplaceAll(StripMarks(s), SmallEnye, 'n'), CapitalEnye, 'n');
    assert forall i :: 0 <= i < |noCapital| ==>
      !IsCombiningMark(noCapital[i]) && noCapital[i] != SmallEnye && noCapital[i] != CapitalEnye;
    ToLower(noCapital)
  }

  /**
   * What the character-wise steps keep: each character that is not a mark, in
   * order, with an enye replaced and then lower-cased.
   */
  lemma LoweredChars(s: string)
    ensures |Lowered(s)| == |StripMarks(s)|
    ensures forall i :: 0 <= i < |Lowered(s)| ==> Lowered(s)[i] == LowerChar(Unenye(StripMarks(s)[i]))
    ensures (forall i :: 0 <= i < |s| ==> !IsCombiningMark(s[i])) ==>
      |Lowered(s)| == |s| && forall i :: 0 <= i < |s| ==> Lowered(s)[i] == LowerChar(Unenye(s[i]))
  {
  }

  lemma TidyPrefix(s: string, n: nat)
    requires Tidy(s) && n <= |s|
    ensures Tidy(s[..n])
  {
  }

  lemma TrimKeepsTidy(s: string)
    requires Tidy(s) && ' ' !in s
    ensures Tidy(Trim(s)) && ' ' !in Trim(s)
  {
    var t := TrimStart(s);
    assert forall i :: 0 <= i < |t| ==> t[i] == s[|s| - |t| + i];
    assert Tidy(t) && ' ' !in t;
    TidyPrefix(t, |Trim(s)|);
  }

  /** The inner `clean` of `createUserName`, after normalisation. */
  function Clean(s: string): (r: string)
    ensures |r| <= |s|
  {
    Trim(FirstToken(Lowered(s)))
  }

  /**
   * A cleaned name holds no space, no upper-case ASCII letter, no combining mark
   * and no enye, and has no whitespace at either end.
   */
  lemma CleanIsClean(s: string)
    ensures IsClean(Clean(s))
  {
    var token := FirstToken(Lowered(s));
    TidyPrefix(Lowered(s), |token|);
    TrimKeepsTidy(token);
  }

  /** `slice(-3)`: the last three characters, or the whole string when shorter. */
  function LastThree(s: string): (r: string)
    ensures |r| == if |s| < 3 then |s| else 3
    ensures r == s[|s| - |r|..]
  {
    if |s| <= 3 then s else s[|s| - 3..]
  }

  /**
   * `createUserName(firstName, lastName, nationalId)`: the cleaned first name, one
   * dot, the cleaned last name, then the id's last three characters with no
   * separator before them.
   */
  function CreateUserName(firstName: string, lastName: string, nationalId: string): (name: string)
    ensures var f, l, id := Clean(firstName), Clean(lastName), LastThree(nationalId);
      && |name| == |f| + 1 + |l| + |id|
      && name[..|f|] == f
      && name[|f|] == '.'
      && name[|f| + 1..|name| - |id|] == l
      && name[|name| - |id|..] == nationalId[|nationalId| - |id|..]
  {
    JoinLayout(Clean(firstName), Clean(lastName), LastThree(nationalId));
    Clean(firstName) + "." + Clean(lastName) + LastThree(nationalId)
  }

  lemma JoinLayout(f: string, l: string, id: string)
    ensures var name := f + "." + l + id;
      && |name| == |f| + 1 + |l| + |id|
      && name[..|f|] == f
      && name[|f|] == '.'
      && name[|f| + 1..|name| - |id|] == l
      && name[|name| - |id|..] == id
  {
    var name := f + "." + l + id;
    assert name[|f| + 1..|name| - |id|] == l;
  }

  /** The names `clean` leaves alone: those it could have produced. */
  predicate IsClean(s: string) {
    Tidy(s) && ' ' !in s && (s == [] || (!IsWhitespace(s[0]) && !IsWhitespace(s[|s| - 1])))
  }

  /** `clean` is the identity on clean names. */
  lemma CleanFixesCleanNames(c: string)
    requires IsClean(c)
    ensures Clean(c) == c
  {
    assert StripMarks(c) == c;
    assert ReplaceAll(c, SmallEnye, 'n') == c;
    assert ReplaceAll(c, CapitalEnye, 'n') == c;
    assert ToLower(c) == c;
    assert Lowered(c) == c;
    assert FirstToken(c) == c;
    assert TrimStart(c) == c;
    assert TrimEnd(c) == c;
  }

  /** Printable ASCII text, space included: no mark, no enye, no other whitespace. */
  predicate PrintableAscii(s: string) {
    forall i :: 0 <= i < |s| ==> ' ' <= s[i] <= '~'
  }

  /** On printable ASCII text `clean` gives the lower-cased text before the first space. */
  lemma CleanAscii(s: string)
    requires PrintableAscii(s)
    ensures Clean(s) == ToLower(FirstToken(s))
  {
    LoweredAscii(s);
    FirstTokenLower(s);
    AsciiTokenHasNoWhitespace(s);
    TrimWithoutWhitespace(ToLower(FirstToken(s)));
  }

  lemma AsciiTokenHasNoWhitespace(s: string)
    requires PrintableAscii(s)
    ensures forall i :: 0 <= i < |ToLower(FirstToken(s))| ==> !IsWhitespace(ToLower(FirstToken(s))[i])
  {
    var t := ToLower(FirstToken(s));
    forall i | 0 <= i < |t| ensures !IsWhitespace(t[i]) {
      var c := FirstToken(s)[i];
      assert c == s[i] && c != ' ';
      GraphicNotWhitespace(c);
    }
  }

  /** A printable ASCII character other than the space is not whitespace, before or after lower-casing. */
  lemma GraphicNotWhitespace(c: char)
    requires '!' <= c <= '~'
    ensures !IsWhitespace(c) && !IsWhitespace(LowerChar(c))
  {
  }

  lemma LoweredAscii(s: string)
    requires PrintableAscii(s)
    ensures Lowered(s) == ToLower(s)
  {
    LoweredChars(s);
    forall i | 0 <= i < |s| ensures Lowered(s)[i] == ToLower(s)[i] {
      assert Unenye(s[i]) == s[i];
    }
  }

  lemma TrimWithoutWhitespace(t: string)
    requires forall i :: 0 <= i < |t| ==> !IsWhitespace(t[i])
    ensures Trim(t) == t
  {
    assert TrimStart(t) == t;
    assert TrimEnd(t) == t;
  }

  /** Lower-casing neither makes nor removes a space, so it commutes with `split(' ')[0]`. */
  lemma {:induction false} FirstTokenLower(s: string)
    ensures FirstToken(ToLower(s)) == ToLower(FirstToken(s))
  {
    if s != [] && s[0] != ' ' {
      assert ToLower(s)[1..] == ToLower(s[1..]);
      FirstTokenLower(s[1..]);
    }
  }

  /** Of a two-part printable ASCII name only the first word is kept, lower-cased. */
  lemma CleanTakesFirstWord(word: string, rest: string)
    requires PrintableAscii(word + " " + rest) && ' ' !in word
    ensures Clean(word + " " + rest) == ToLower(word)
  {
    CleanAscii(word + " " + rest);
    FirstTokenOfWords(word, rest);
  }

  /** `split(' ')[0]` of two words joined by a space is the first word. */
  lemma FirstTokenOfWords(word: string, rest: string)
    requires ' ' !in word
    ensures FirstToken(word + " " + rest) == word
  {
    var s := word + " " + rest;
    assert s[..|word|] == word && s[|word|] == ' ';
  }

  /** A name that starts with a space cleans to the empty string: `split(' ')[0]` is "". */
  lemma CleanLeadingSpace(rest: string)
    ensures Clean(" " + rest) == ""
  {
    StripMarksAppend(" ", rest);
    assert Lowered(" " + rest)[0] == ' ';
  }

  lemma AsciiAppend(a: string, b: string)
    requires PrintableAscii(a) && PrintableAscii(b)
    ensures PrintableAscii(a + b)
  {
    forall i | 0 <= i < |a + b| ensures (a + b)[i] == if i < |a| then a[i] else b[i - |a|] {
    }
  }

  /** Worked case: "Ana Maria" cleans to "ana". */
  lemma CleanExample(first: string, second: string)
    requires first == "Ana" && second == "Maria"
    ensures Clean(first + " " + second) == "ana"
  {
    ExampleIsAscii(first, second);
    CleanTakesFirstWord(first, second);
  }

  lemma ExampleIsAscii(first: string, second: string)
    requires first == "Ana" && second == "Maria"
    ensures PrintableAscii(first + " " + second) && ' ' !in first && ToLower(first) == "ana"
  {
    assert PrintableAscii(first) && PrintableAscii(" ") && PrintableAscii(second);
    AsciiAppend(first, " ");
    AsciiAppend(first + " ", second);
  }

  /** Cleaning a cleaned name changes nothing. */
  lemma CleanIdempotent(s: string)
    ensures Clean(Clean(s)) == Clean(s)
  {
    CleanIsClean(s);
    CleanFixesCleanNames(Clean(s));
  }

  /**
   * For names that `clean` leaves alone, such as "john" and "doe" (see
   * `CleanFixesCleanNames`), with id "1234567123", the username is "john.doe123":
   * no separator is put before the digits.
   */
  lemma NoDotBeforeDigits(firstName: string, lastName: string, nationalId: string)
    requires Clean(firstName) == firstName && Clean(lastName) == lastName && |nationalId| >= 3
    ensures CreateUserName(firstName, lastName, nationalId)
            == firstName + "." + lastName + nationalId[|nationalId| - 3..]
  {
  }

  /** Cleaning the names beforehand does not change the username. */
  lemma PrecleanedNamesAgree(firstName: string, lastName: string, nationalId: string)
    ensures CreateUserName(Clean(firstName), Clean(lastName), nationalId)
            == CreateUserName(firstName, lastName, nationalId)
  {
    CleanIdempotent(firstName);
    CleanIdempotent(lastName);
  }
}
