/** The simple regular expressions of the vendored Google Test: what their syntax
    is, what they mean, and the matcher that decides them.

    A C string is a sequence of characters without '\0'; reading at its length
    gives '\0'. */
module SimpleRegex {

  type CString = s: string | forall k :: 0 <= k < |s| ==> s[k] != '\0'

  function At(s: string, i: nat): char
    requires i <= |s|
  {
    if i < |s| then s[i] else '\0'
  }

  // ----- Character classes -----

  predicate IsInSet(ch: char, chars: set<char>) {
    ch != '\0' && ch in chars
  }

  predicate IsAsciiDigit(ch: char) {
    '0' <= ch <= '9'
  }

  predicate IsAsciiPunct(ch: char) {
    IsInSet(ch, {'^', '-', '!', '\"', '#', '$', '%', '&', '\'', '(', ')', '*', '+', ',', '.', '/',
                 ':', ';', '<', '=', '>', '?', '@', '[', '\\', ']', '_', '`', '{', '|', '}', '~'})
  }

  predicate IsRepeat(ch: char) {
    IsInSet(ch, {'?', '*', '+'})
  }

  predicate IsAsciiWhiteSpace(ch: char) {
    IsInSet(ch, {' ', '\U{000C}', '\n', '\r', '\t', '\U{000B}'})
  }

  predicate IsAsciiWordChar(ch: char) {
    'a' <= ch <= 'z' || 'A' <= ch <= 'Z' || '0' <= ch <= '9' || ch == '_'
  }

  predicate IsValidEscape(c: char) {
    IsAsciiPunct(c) || IsInSet(c, {'d', 'D', 'f', 'n', 'r', 's', 'S', 't', 'v', 'w', 'W'})
  }

  /** Whether the atom (`patternChar`, or `\patternChar` if escaped) matches `ch`. */
  predicate AtomMatchesChar(escaped: bool, patternChar: char, ch: char) {
    if escaped then
      match patternChar
      case 'd' => IsAsciiDigit(ch)
      case 'D' => !IsAsciiDigit(ch)
      case 'f' => ch == '\U{000C}'
      case 'n' => ch == '\n'
      case 'r' => ch == '\r'
      case 's' => IsAsciiWhiteSpace(ch)
      case 'S' => !IsAsciiWhiteSpace(ch)
      case 't' => ch == '\t'
      case 'v' => ch == '\U{000B}'
      case 'w' => IsAsciiWordChar(ch)
      case 'W' => !IsAsciiWordChar(ch)
      case _ => IsAsciiPunct(patternChar) && patternChar == ch
    else
      (patternChar == '.' && ch != '\n') || patternChar == ch
  }

  // ----- What the classes are -----

  /** Punctuation is what can be seen and is neither letter nor digit. */
  lemma PunctuationExactly(ch: char)
    ensures IsAsciiPunct(ch) <==>
            '!' <= ch <= '~' && !('a' <= ch <= 'z') && !('A' <= ch <= 'Z') && !('0' <= ch <= '9')
  {
    PunctuationRanges(ch);
  }

  lemma PunctuationRanges(ch: char)
    ensures IsAsciiPunct(ch) <==> '!' <= ch <= '/' || ':' <= ch <= '@' || '[' <= ch <= '`' || '{' <= ch <= '~'
  {
  }

  /** White space is the blank and the five control characters from tab to carriage return. */
  lemma WhiteSpaceExactly(ch: char)
    ensures IsAsciiWhiteSpace(ch) <==> ch == ' ' || '\t' <= ch <= '\r'
  {
  }

  /** Unescaped, a dot is every character except the newline, and any other character is
      itself. */
  lemma PlainAtoms(c: char, ch: char)
    ensures AtomMatchesChar(false, '.', ch) <==> ch != '\n'
    ensures c != '.' ==> (AtomMatchesChar(false, c, ch) <==> ch == c)
  {
  }

  /** A capital letter is the complement of its small one; a small letter is a class by its
      ranges, or one character of white space; escaped punctuation is itself. */
  lemma EscapedAtoms(c: char, ch: char)
    ensures AtomMatchesChar(true, 'D', ch) <==> !AtomMatchesChar(true, 'd', ch)
    ensures AtomMatchesChar(true, 'S', ch) <==> !AtomMatchesChar(true, 's', ch)
    ensures AtomMatchesChar(true, 'W', ch) <==> !AtomMatchesChar(true, 'w', ch)
    ensures AtomMatchesChar(true, 'd', ch) <==> '0' <= ch <= '9'
    ensures AtomMatchesChar(true, 's', ch) <==> ch == ' ' || '\t' <= ch <= '\r'
    ensures AtomMatchesChar(true, 'w', ch) <==>
            'a' <= ch <= 'z' || 'A' <= ch <= 'Z' || '0' <= ch <= '9' || ch == '_'
    ensures AtomMatchesChar(true, 't', ch) <==> ch as int == 9
    ensures AtomMatchesChar(true, 'n', ch) <==> ch as int == 10
    ensures AtomMatchesChar(true, 'v', ch) <==> ch as int == 11
    ensures AtomMatchesChar(true, 'f', ch) <==> ch as int == 12
    ensures AtomMatchesChar(true, 'r', ch) <==> ch as int == 13
  {
    WhiteSpaceExactly(ch);
    hide IsAsciiWhiteSpace, IsAsciiPunct;
  }

  lemma EscapedPunctuation(c: char, ch: char)
    requires IsAsciiPunct(c)
    ensures AtomMatchesChar(true, c, ch) <==> ch == c
  {
    PunctuationRanges(c);
    hide IsAsciiPunct, IsAsciiWhiteSpace;
  }

  /** An escape is valid exactly if it can match something. */
  lemma ValidEscapesExactly(c: char)
    ensures IsValidEscape(c) <==> exists ch :: AtomMatchesChar(true, c, ch)
  {
    if IsAsciiPunct(c) {
      EscapedPunctuation(c, c);
    } else {
      EscapedLetter(c);
    }
  }

  lemma EscapedLetter(c: char)
    requires !IsAsciiPunct(c)
    ensures IsValidEscape(c) <==> exists ch :: AtomMatchesChar(true, c, ch)
  {
    hide IsAsciiPunct;
    assert AtomMatchesChar(true, 'd', '0') && AtomMatchesChar(true, 'D', 'a') && AtomMatchesChar(true, 'f', '\U{000C}');
    assert AtomMatchesChar(true, 'n', '\n') && AtomMatchesChar(true, 'r', '\r') && AtomMatchesChar(true, 's', ' ');
    assert AtomMatchesChar(true, 'S', 'a') && AtomMatchesChar(true, 't', '\t');
    assert AtomMatchesChar(true, 'v', '\U{000B}');
    assert AtomMatchesChar(true, 'w', 'a') && AtomMatchesChar(true, 'W', ' ');
  }

  // ----- Syntax: what a regex is -----

  /** A character that stands for itself (or, for '.', any character) unescaped. */
  predicate IsPlain(c: char) {
    c != '\0' && c != '\\' && !IsInSet(c, {'^', '$', '?', '*', '+', '(', ')', '[', ']', '{', '}', '|'})
  }

  /** Every character can be written, as it is or escaped. */
  lemma EveryCharacterCanBeWritten(c: char)
    requires c != '\0'
    ensures IsPlain(c) || (IsAsciiPunct(c) && IsValidEscape(c))
  {
  }

  lemma PlainIsNotSpecial(c: char)
    ensures IsPlain(c) ==> c != '\\' && c != '\0' && c != '$' && c != '^' && !IsRepeat(c)
  {
  }

  datatype Repeat = Once | AtMostOnce | AnyTimes | AtLeastOnce {
    /** The character that asks for this repetition. */
    function Text(): string {
      match this
      case Once => ""
      case AtMostOnce => "?"
      case AnyTimes => "*"
      case AtLeastOnce => "+"
    }

    predicate Allows(count: nat) {
      match this
      case Once => count == 1
      case AtMostOnce => count <= 1
      case AnyTimes => true
      case AtLeastOnce => count >= 1
    }
  }

  datatype Item = Item(escaped: bool, c: char, repeat: Repeat) {
    ghost predicate WellFormed() {
      if escaped then IsValidEscape(c)
      else IsPlain(c)
    }

    function Text(): string {
      (if escaped then ['\\', c] else [c]) + repeat.Text()
    }

    ghost predicate MatchesChar(ch: char) {
      AtomMatchesChar(escaped, c, ch)
    }
  }

  /** `^` if anchored at the start, the items, `$` if anchored at the end. */
  datatype Pattern = Pattern(atStart: bool, items: seq<Item>, atEnd: bool) {
    ghost predicate WellFormed() {
      forall k :: 0 <= k < |items| ==> items[k].WellFormed()
    }

    ghost function Text(): string {
      (if atStart then "^" else "") + TailText(items, atEnd)
    }
  }

  ghost function TailText(items: seq<Item>, atEnd: bool): string {
    if items == [] then (if atEnd then "$" else "")
    else items[0].Text() + TailText(items[1..], atEnd)
  }

  // ----- Meaning: the language of a pattern -----

  /** `w` is a run of strings, one for each item: as many characters as the item's
      repetition allows, each matched by its atom. */
  ghost predicate InLanguage(items: seq<Item>, w: string) {
    if items == [] then w == ""
    else exists k ::
      && 0 <= k <= |w| && items[0].repeat.Allows(k)
      && AllMatch(items[0], w, k)
      && InLanguage(items[1..], w[k..])
  }

  ghost predicate AllMatch(item: Item, w: string, k: nat)
    requires k <= |w|
  {
    forall n :: 0 <= n < k ==> item.MatchesChar(w[n])
  }

  /** Some prefix of `str` is in the language; the whole of it if anchored at the end. */
  ghost predicate MatchesPrefix(items: seq<Item>, atEnd: bool, str: string) {
    exists n :: 0 <= n <= |str| && (atEnd ==> n == |str|) && InLanguage(items, str[..n])
  }

  /** A match starts somewhere in `str`; at its start if anchored there. */
  ghost predicate MatchesAnywhere(p: Pattern, str: string) {
    exists start :: 0 <= start <= |str| && (p.atStart ==> start == 0) &&
      MatchesPrefix(p.items, p.atEnd, str[start..])
  }

  /** A non-empty pattern matches a prefix by letting the first item take some
      characters and the rest match a prefix of what remains. */
  lemma HeadThenTail(items: seq<Item>, atEnd: bool, str: string)
    requires items != []
    ensures MatchesPrefix(items, atEnd, str) <==>
            exists k :: 0 <= k <= |str| && TakesThenMatches(items, atEnd, str, k)
  {
    hide AllMatch, InLanguage, Repeat.Allows;
    if n: nat :| n <= |str| && (atEnd ==> n == |str|) && InLanguage(items, str[..n]) {
      HeadOfPrefix(items, atEnd, str, n);
    }
    if k :| 0 <= k <= |str| && TakesThenMatches(items, atEnd, str, k) {
      var n: nat :| n <= |str| - k && (atEnd ==> n == |str| - k) && InLanguage(items[1..], str[k..][..n]);
      PrefixOfHead(items, str, k, n);
    }
  }

  lemma HeadOfPrefix(items: seq<Item>, atEnd: bool, str: string, n: nat)
    requires items != [] && n <= |str| && (atEnd ==> n == |str|) && InLanguage(items, str[..n])
    ensures exists k :: 0 <= k <= |str| && TakesThenMatches(items, atEnd, str, k)
  {
    var w := str[..n];
    var k :| 0 <= k <= |w| && items[0].repeat.Allows(k) && AllMatch(items[0], w, k) && InLanguage(items[1..], w[k..]);
    hide InLanguage, Repeat.Allows, Item.MatchesChar;
    assert w[k..] == str[k..][..n - k];
    assert TakesThenMatches(items, atEnd, str, k);
  }

  lemma PrefixOfHead(items: seq<Item>, str: string, k: nat, n: nat)
    requires items != [] && k + n <= |str| && items[0].repeat.Allows(k) && AllMatch(items[0], str, k)
    requires InLanguage(items[1..], str[k..][..n])
    ensures InLanguage(items, str[..k + n])
  {
    hide Repeat.Allows, Item.MatchesChar;
    var w := str[..k + n];
    assert w[k..] == str[k..][..n];
    assert AllMatch(items[0], w, k);
  }

  lemma OneThenTail(items: seq<Item>, atEnd: bool, str: string)
    requires items != [] && items[0].repeat.Once?
    ensures MatchesPrefix(items, atEnd, str) <==>
            str != "" && items[0].MatchesChar(str[0]) && MatchesPrefix(items[1..], atEnd, str[1..])
  {
    HeadThenTail(items, atEnd, str);
    hide MatchesPrefix, Item.MatchesChar;
    if str != "" && items[0].MatchesChar(str[0]) && MatchesPrefix(items[1..], atEnd, str[1..]) {
      assert TakesThenMatches(items, atEnd, str, 1);
    }
  }

  ghost predicate TakesThenMatches(items: seq<Item>, atEnd: bool, str: string, k: nat)
    requires items != [] && k <= |str|
  {
    && items[0].repeat.Allows(k) && AllMatch(items[0], str, k)
    && MatchesPrefix(items[1..], atEnd, str[k..])
  }

  lemma EmptyPattern(atEnd: bool, str: string)
    ensures MatchesPrefix([], atEnd, str) <==> (atEnd ==> str == "")
  {
    if atEnd ==> str == "" {
      assert InLanguage([], str[..0]);
    }
  }

  // ----- The matcher -----

  const SIZE_MAX: nat := 0xFFFF_FFFF_FFFF_FFFF

  method MatchRegexAtHead(regex: CString, str: CString, ghost items: seq<Item>, ghost atEnd: bool) returns (r: bool)
    requires Pattern(false, items, atEnd).WellFormed() && regex == TailText(items, atEnd)
    requires |str| < SIZE_MAX
    ensures r <==> MatchesPrefix(items, atEnd, str)
    decreases |regex|, 0
  {
    hide MatchesPrefix, AtomMatchesChar, Pattern.WellFormed, TailText, IsRepeat, Repeat.Text;
    TextOfNothing(items, atEnd);
    if items != [] {
      HeadOfText(items, atEnd);
    }
    if At(regex, 0) == '\0' {
      EmptyPattern(atEnd, str);
      return true;
    }
    if At(regex, 0) == '$' {
      EmptyPattern(atEnd, str);
      return At(str, 0) == '\0';
    }
    var escaped := At(regex, 0) == '\\';
    var head := if escaped then 1 else 0;
    if IsRepeat(At(regex, head + 1)) {
      r := MatchRepetitionAndRegexAtHead(escaped, regex[head], regex[head + 1], regex[head + 2..], str, items, atEnd);
    } else {
      OneThenTail(items, atEnd, str);
      if At(str, 0) != '\0' && AtomMatchesChar(escaped, regex[head], str[0]) {
        r := MatchRegexAtHead(regex[head + 1..], str[1..], items[1..], atEnd);
      } else {
        r := false;
      }
    }
  }

  method MatchRepetitionAndRegexAtHead(escaped: bool, c: char, repeat: char, regex: CString, str: CString,
                                       ghost items: seq<Item>, ghost atEnd: bool) returns (r: bool)
    requires Pattern(false, items, atEnd).WellFormed() && items != []
    requires items[0].escaped == escaped && items[0].c == c && items[0].repeat.Text() == [repeat]
    requires regex == TailText(items[1..], atEnd)
    requires |str| < SIZE_MAX
    ensures r <==> MatchesPrefix(items, atEnd, str)
    decreases |regex|, 1
  {
    hide MatchesPrefix, AtomMatchesChar, TailText, Item.WellFormed;
    var minCount := if repeat == '+' then 1 else 0;
    var maxCount := if repeat == '?' then 1 else SIZE_MAX - 1;
    assert forall k: nat :: k < SIZE_MAX ==> (items[0].repeat.Allows(k) <==> minCount <= k <= maxCount);
    HeadThenTail(items, atEnd, str);
    var i := 0;
    while i <= maxCount
      invariant 0 <= i <= maxCount + 1 && i <= |str|
      invariant AllMatch(items[0], str, i)
      invariant forall k :: 0 <= k < i ==> !TakesThenMatches(items, atEnd, str, k)
    {
      if i >= minCount {
        var tail := MatchRegexAtHead(regex, str[i..], items[1..], atEnd);
        if tail {
          assert TakesThenMatches(items, atEnd, str, i);
          return true;
        }
      }
      assert !TakesThenMatches(items, atEnd, str, i);
      if At(str, i) == '\0' || !AtomMatchesChar(escaped, c, str[i]) {
        assert i < |str| ==> !items[0].MatchesChar(str[i]);
        return false;
      }
      i := i + 1;
    }
    return false;
  }

  /** `regex` is the text of a pattern; which one, `PatternOfText` shows to be no
      question. */
  ghost predicate IsRegex(regex: string) {
    exists p: Pattern :: p.WellFormed() && p.Text() == regex
  }

  method MatchRegexAnywhere(regex: CString, str: CString) returns (r: bool)
    requires IsRegex(regex) && |str| < SIZE_MAX
    ensures forall p: Pattern :: p.WellFormed() && p.Text() == regex ==> (r <==> MatchesAnywhere(p, str))
  {
    ghost var p: Pattern :| p.WellFormed() && p.Text() == regex;
    forall q: Pattern | q.WellFormed() && q.Text() == regex
      ensures q == p
    {
      PatternOfText(p, q);
    }
    TailStart(p.items, p.atEnd);
    if At(regex, 0) == '^' {
      r := MatchRegexAtHead(regex[1..], str, p.items, p.atEnd);
      assert str[0..] == str;
      return;
    }
    for start := 0 to |str| + 1
      invariant forall k :: 0 <= k < start ==> !MatchesPrefix(p.items, p.atEnd, str[k..])
    {
      r := MatchRegexAtHead(regex, str[start..], p.items, p.atEnd);
      if r {
        return;
      }
    }
    r := false;
  }

  // ----- The text of a pattern determines the pattern -----

  lemma TailStart(items: seq<Item>, atEnd: bool)
    requires Pattern(false, items, atEnd).WellFormed()
    ensures var t := TailText(items, atEnd); t != "" ==> t[0] != '^' && !IsRepeat(t[0])
    ensures TailText(items, atEnd) == "" <==> items == [] && !atEnd
  {
  }

  lemma TextOfNothing(items: seq<Item>, atEnd: bool)
    ensures items == [] ==> TailText(items, atEnd) == if atEnd then "$" else ""
  {
  }

  /** What the first item shows at the start of the text. */
  lemma HeadOfText(items: seq<Item>, atEnd: bool)
    requires Pattern(false, items, atEnd).WellFormed() && items != []
    ensures Pattern(false, items[1..], atEnd).WellFormed()
    ensures var t, x := TailText(items, atEnd), items[0]; var head := if x.escaped then 1 else 0;
            && head < |t| && t[head] == x.c
            && t[0] != '\0' && t[0] != '$' && (t[0] == '\\' <==> x.escaped)
            && (x.repeat.Once? <==> !IsRepeat(At(t, head + 1)))
            && (x.repeat.Once? ==> t[head + 1..] == TailText(items[1..], atEnd))
            && (!x.repeat.Once? ==>
                  |t| > head + 1 && x.repeat.Text() == [t[head + 1]] && t[head + 2..] == TailText(items[1..], atEnd))
  {
    var x, rest := items[0], TailText(items[1..], atEnd);
    var atom: string := if x.escaped then ['\\', x.c] else [x.c];
    assert Pattern(false, items[1..], atEnd).WellFormed();
    TailStart(items[1..], atEnd);
    PlainIsNotSpecial(x.c);
    assert x.escaped || (x.c != '\\' && x.c != '\0' && x.c != '$');
    RepeatAfter(x.repeat, rest);
    hide IsPlain, IsInSet, IsValidEscape, IsRepeat, Repeat.Text;
    assert TailText(items, atEnd) == x.Text() + rest && x.Text() == atom + x.repeat.Text();
    ConcatAssociates(atom, x.repeat.Text(), rest);
    AtomThenRest(atom, x.repeat.Text() + rest);
    hide TailText, Pattern.WellFormed, Item.WellFormed, Item.Text;
  }

  lemma ConcatAssociates(a: string, b: string, c: string)
    ensures a + b + c == a + (b + c)
  {
  }

  lemma AtomThenRest(atom: string, rest: string)
    requires |atom| > 0
    ensures var t, n := atom + rest, |atom|;
            && t[0] == atom[0] && t[n - 1] == atom[n - 1] && t[n..] == rest && At(t, n) == At(rest, 0)
            && (rest != "" ==> t[n] == rest[0] && t[n + 1..] == rest[1..])
  {
  }

  lemma RepeatAfter(r: Repeat, rest: string)
    requires rest != "" ==> !IsRepeat(rest[0])
    ensures var t := r.Text() + rest;
            && (r.Once? <==> !IsRepeat(At(t, 0)))
            && if r.Once? then t == rest else t != "" && r.Text() == [t[0]] && t[1..] == rest
  {
  }

  lemma {:induction false} TailOfText(items: seq<Item>, atEnd: bool, items': seq<Item>, atEnd': bool)
    requires Pattern(false, items, atEnd).WellFormed() && Pattern(false, items', atEnd').WellFormed()
    requires TailText(items, atEnd) == TailText(items', atEnd')
    ensures items == items' && atEnd == atEnd'
  {
    if items != [] {
      assert TailText(items, atEnd)[0] == items[0].Text()[0] != '$';
    }
    if items' != [] {
      assert TailText(items', atEnd')[0] == items'[0].Text()[0] != '$';
    }
    if items != [] && items' != [] {
      TailStart(items[1..], atEnd);
      TailStart(items'[1..], atEnd');
      ItemOfText(items[0], TailText(items[1..], atEnd), items'[0], TailText(items'[1..], atEnd'));
      TailOfText(items[1..], atEnd, items'[1..], atEnd');
    }
  }

  lemma ItemOfText(x: Item, rest: string, x': Item, rest': string)
    requires x.WellFormed() && x'.WellFormed() && x.Text() + rest == x'.Text() + rest'
    requires (rest != "" ==> !IsRepeat(rest[0])) && (rest' != "" ==> !IsRepeat(rest'[0]))
    ensures x == x' && rest == rest'
  {
    PlainIsNotSpecial(x.c);
    PlainIsNotSpecial(x'.c);
    hide IsPlain, IsInSet, IsValidEscape, IsRepeat, Repeat.Text;
    var t := x.Text() + rest;
    assert t[0] == if x.escaped then '\\' else x.c;
    assert t[0] == if x'.escaped then '\\' else x'.c;
    var head := if x.escaped then 2 else 1;
    assert t[head..] == x.repeat.Text() + rest == x'.repeat.Text() + rest';
    assert x.c == t[head - 1] == x'.c;
    RepeatOfText(x.repeat, rest, x'.repeat, rest');
  }

  lemma RepeatOfText(r: Repeat, rest: string, r': Repeat, rest': string)
    requires r.Text() + rest == r'.Text() + rest'
    requires (rest != "" ==> !IsRepeat(rest[0])) && (rest' != "" ==> !IsRepeat(rest'[0]))
    ensures r == r' && rest == rest'
  {
    var t := r.Text() + rest;
    assert if r == Once then t == rest else IsRepeat(t[0]) && t[0] == r.Text()[0] && t[1..] == rest;
    assert if r' == Once then t == rest' else IsRepeat(t[0]) && t[0] == r'.Text()[0] && t[1..] == rest';
  }

  lemma PatternOfText(p: Pattern, q: Pattern)
    requires p.WellFormed() && q.WellFormed() && p.Text() == q.Text()
    ensures p == q
  {
    TailStart(p.items, p.atEnd);
    TailStart(q.items, q.atEnd);
    assert p.atStart ==> p.Text()[0] == '^' && p.Text()[1..] == TailText(p.items, p.atEnd);
    assert q.atStart ==> q.Text()[0] == '^' && q.Text()[1..] == TailText(q.items, q.atEnd);
    assert !p.atStart ==> p.Text() == TailText(p.items, p.atEnd);
    assert !q.atStart ==> q.Text() == TailText(q.items, q.atEnd);
    TailOfText(p.items, p.atEnd, q.items, q.atEnd);
  }

  // ----- Validation -----

  /** What may follow in a regex: a repetition, if the last token was repeatable,
      and then the text of more items. */
  ghost predicate MayFollow(s: string, repeatable: bool) {
    exists repeat: Repeat, items, atEnd :: IsContinuation(s, repeatable, repeat, items, atEnd)
  }

  ghost predicate IsContinuation(s: string, repeatable: bool, repeat: Repeat, items: seq<Item>, atEnd: bool) {
    && (repeat != Once ==> repeatable)
    && Pattern(false, items, atEnd).WellFormed()
    && s == repeat.Text() + TailText(items, atEnd)
  }

  method ValidateRegex(regex: CString) returns (valid: bool)
    ensures valid <==> IsRegex(regex)
  {
    hide IsContinuation, MayFollow, IsRegex;
    RegexStarts(regex);
    var isValid := true;
    var prevRepeatable := false;
    var i := 0;
    while i < |regex|
      invariant 0 <= i <= |regex|
      invariant i == 0 ==> !prevRepeatable
      invariant IsRegex(regex) <==>
                isValid && if i == 0 && At(regex, 0) == '^' then MayFollow(regex[1..], false)
                           else MayFollow(regex[i..], prevRepeatable)
    {
      ghost var rest := regex[i..];
      FollowStep(rest, prevRepeatable);
      FollowStep("", false);
      assert rest[1..] == regex[i + 1..];
      if regex[i] == '\\' {
        i := i + 1;
        if At(regex, i) == '\0' {
          assert rest == "\\";
          return false;
        }
        if !IsValidEscape(regex[i]) {
          isValid := false;
        }
        assert rest[2..] == regex[i + 1..];
        prevRepeatable := true;
      } else {
        var ch := regex[i];
        if ch == '^' && i > 0 {
          isValid := false;
        } else if ch == '$' && At(regex, i + 1) != '\0' {
          isValid := false;
        } else if IsInSet(ch, {'(', ')', '[', ']', '{', '}', '|'}) {
          isValid := false;
        } else if IsRepeat(ch) && !prevRepeatable {
          isValid := false;
        }
        prevRepeatable := !IsInSet(ch, {'^', '$', '?', '*', '+'});
      }
      i := i + 1;
    }
    FollowStep("", prevRepeatable);
    return isValid;
  }

  lemma RegexStarts(regex: string)
    ensures IsRegex(regex) <==>
            if regex != "" && regex[0] == '^' then MayFollow(regex[1..], false) else MayFollow(regex, false)
  {
    var atStart := regex != "" && regex[0] == '^';
    var tail := if atStart then regex[1..] else regex;
    if IsRegex(regex) {
      RegexHasTail(regex, atStart, tail);
    }
    if MayFollow(tail, false) {
      TailMakesRegex(regex, atStart, tail);
    }
  }

  lemma RegexHasTail(regex: string, atStart: bool, tail: string)
    requires IsRegex(regex)
    requires atStart == (regex != "" && regex[0] == '^') && tail == if atStart then regex[1..] else regex
    ensures MayFollow(tail, false)
  {
    hide IsPlain, IsInSet, IsValidEscape, IsRepeat, Item.WellFormed, TailText;
    var p: Pattern :| p.WellFormed() && p.Text() == regex;
    TailStart(p.items, p.atEnd);
    var t := TailText(p.items, p.atEnd);
    assert p.atStart ==> regex[0] == '^' && regex[1..] == t;
    assert !p.atStart ==> regex == t;
    assert tail == Once.Text() + t;
    assert IsContinuation(tail, false, Once, p.items, p.atEnd);
  }

  lemma TailMakesRegex(regex: string, atStart: bool, tail: string)
    requires MayFollow(tail, false)
    requires atStart == (regex != "" && regex[0] == '^') && tail == if atStart then regex[1..] else regex
    ensures IsRegex(regex)
  {
    hide IsPlain, IsInSet, IsValidEscape, IsRepeat, Item.WellFormed, TailText;
    var repeat, items, atEnd :| IsContinuation(tail, false, repeat, items, atEnd);
    var p := Pattern(atStart, items, atEnd);
    assert p.Text() == (if atStart then "^" else "") + tail == regex;
  }

  lemma FollowStep(s: string, repeatable: bool)
    ensures MayFollow(s, repeatable) <==> FollowsByFirstChar(s, repeatable)
  {
    hide FollowsByFirstChar;
    if MayFollow(s, repeatable) {
      var repeat, items, atEnd :| IsContinuation(s, repeatable, repeat, items, atEnd);
      FollowStepDown(s, repeatable, repeat, items, atEnd);
    }
    if FollowsByFirstChar(s, repeatable) {
      FollowStepUp(s, repeatable);
    }
  }

  ghost predicate FollowsByFirstChar(s: string, repeatable: bool) {
    if s == "" then true
    else if s[0] == '\\' then |s| > 1 && IsValidEscape(s[1]) && MayFollow(s[2..], true)
    else if IsRepeat(s[0]) then repeatable && MayFollow(s[1..], false)
    else if s[0] == '$' then s == "$"
    else IsPlain(s[0]) && MayFollow(s[1..], true)
  }

  lemma FollowStepDown(s: string, repeatable: bool, repeat: Repeat, items: seq<Item>, atEnd: bool)
    requires IsContinuation(s, repeatable, repeat, items, atEnd)
    ensures FollowsByFirstChar(s, repeatable)
  {
    if repeat != Once {
      RepeatFollows(s, repeat, items, atEnd);
    } else if items == [] {
      assert !IsRepeat('$');
    } else {
      ItemFollows(s, items[0], items[1..], atEnd);
    }
  }

  lemma RepeatFollows(s: string, repeat: Repeat, items: seq<Item>, atEnd: bool)
    requires repeat != Once && Pattern(false, items, atEnd).WellFormed()
    requires s == repeat.Text() + TailText(items, atEnd)
    ensures s != "" && s[0] != '\\' && IsRepeat(s[0]) && MayFollow(s[1..], false)
  {
    hide IsPlain, IsValidEscape, Item.WellFormed, TailText;
    assert s[1..] == Once.Text() + TailText(items, atEnd);
    assert IsContinuation(s[1..], false, Once, items, atEnd);
  }

  lemma ItemFollows(s: string, x: Item, rest: seq<Item>, atEnd: bool)
    requires x.WellFormed() && Pattern(false, rest, atEnd).WellFormed()
    requires s == x.Text() + TailText(rest, atEnd)
    ensures s != "" && (s[0] == '\\' <==> x.escaped)
    ensures if x.escaped then |s| > 1 && IsValidEscape(s[1]) && MayFollow(s[2..], true)
            else !IsRepeat(s[0]) && s[0] != '$' && IsPlain(s[0]) && MayFollow(s[1..], true)
  {
    PlainIsNotSpecial(x.c);
    hide IsPlain, IsValidEscape, IsInSet, IsRepeat, TailText;
    var head := if x.escaped then 2 else 1;
    assert s[head..] == x.repeat.Text() + TailText(rest, atEnd);
    assert IsContinuation(s[head..], true, x.repeat, rest, atEnd);
  }

  lemma FollowStepUp(s: string, repeatable: bool)
    requires FollowsByFirstChar(s, repeatable)
    ensures MayFollow(s, repeatable)
  {
    if s == "" {
      assert IsContinuation(s, repeatable, Once, [], false);
    } else if s[0] == '\\' {
      PrependItem(s, repeatable, true);
    } else if IsRepeat(s[0]) {
      PrependRepeat(s);
    } else if s == "$" {
      assert IsContinuation(s, repeatable, Once, [], true);
    } else {
      PrependItem(s, repeatable, false);
    }
  }

  lemma PrependRepeat(s: string)
    requires s != "" && IsRepeat(s[0]) && MayFollow(s[1..], false)
    ensures MayFollow(s, true)
  {
    hide IsPlain, IsValidEscape, Item.WellFormed, TailText;
    var repeat, items, atEnd :| IsContinuation(s[1..], false, repeat, items, atEnd);
    var repeat' := if s[0] == '?' then AtMostOnce else if s[0] == '*' then AnyTimes else AtLeastOnce;
    assert s == [s[0]] + s[1..];
    assert IsContinuation(s, true, repeat', items, atEnd);
  }

  lemma PrependItem(s: string, repeatable: bool, escaped: bool)
    requires var head := if escaped then 2 else 1;
             |s| >= head && MayFollow(s[head..], true)
    requires if escaped then s[0] == '\\' && IsValidEscape(s[1]) else IsPlain(s[0])
    ensures MayFollow(s, repeatable)
  {
    hide IsPlain, IsValidEscape, IsInSet, TailText, MayFollow;
    var head := if escaped then 2 else 1;
    var repeat, items, atEnd := AContinuation(s[head..]);
    var x := Item(escaped, s[head - 1], repeat);
    assert s == s[..head] + s[head..] == x.Text() + TailText(items, atEnd);
    ItemMayFollow(s, repeatable, x, items, atEnd);
  }

  lemma AContinuation(s: string) returns (repeat: Repeat, items: seq<Item>, atEnd: bool)
    requires MayFollow(s, true)
    ensures IsContinuation(s, true, repeat, items, atEnd)
  {
    hide IsContinuation;
    repeat, items, atEnd :| IsContinuation(s, true, repeat, items, atEnd);
  }

  lemma ItemMayFollow(s: string, repeatable: bool, x: Item, items: seq<Item>, atEnd: bool)
    requires x.WellFormed() && Pattern(false, items, atEnd).WellFormed()
    requires s == x.Text() + TailText(items, atEnd)
    ensures MayFollow(s, repeatable)
  {
    hide IsPlain, IsValidEscape, IsInSet, Item.Text, Item.WellFormed;
    assert ([x] + items)[1..] == items;
    assert s == TailText([x] + items, atEnd);
    assert s == Once.Text() + s;
    assert IsContinuation(s, repeatable, Once, [x] + items, atEnd);
  }

  // ----- Matching a whole string -----

  /** What a compiled regex keeps: the pattern to search with, and the pattern that
      is meant to match a whole string only. */
  class RE {
    var pattern: CString
    var fullPattern: CString
    var isValid: bool

    ghost predicate Valid()
      reads this
    {
      isValid ==> IsRegex(pattern) && fullPattern == FullPattern(pattern)
    }

    constructor (regex: CString)
      ensures Valid() && pattern == regex && (isValid <==> IsRegex(regex))
    {
      pattern := regex;
      fullPattern := "";
      new;
      isValid := ValidateRegex(regex);
      if !isValid {
        return;
      }
      var buffer := "";
      if At(regex, 0) != '^' {
        buffer := buffer + "^";
      }
      buffer := buffer + regex;
      if |regex| == 0 || regex[|regex| - 1] != '$' {
        buffer := buffer + "$";
      }
      fullPattern := buffer;
    }

    /** Whether the whole string is in the language of the pattern; any string that
        starts with such a word will do if the regex ends in an escaped dollar sign. */
    method FullMatch(str: CString) returns (r: bool)
      requires Valid() && |str| < SIZE_MAX
      ensures !isValid ==> !r
      ensures isValid ==> forall p: Pattern :: p.WellFormed() && p.Text() == pattern ==>
                (r <==> if EndsInEscapedDollar(p) then MatchesPrefix(p.items, false, str) else InLanguage(p.items, str))
    {
      if !isValid {
        return false;
      }
      ghost var p: Pattern :| p.WellFormed() && p.Text() == pattern;
      FullPatternIsText(p);
      AnchoredMeaning(p, str);
      forall q: Pattern | q.WellFormed() && q.Text() == pattern
        ensures q == p
      {
        PatternOfText(p, q);
      }
      hide MatchesAnywhere, MatchesPrefix, InLanguage, FullPattern;
      r := MatchRegexAnywhere(fullPattern, str);
    }

    method PartialMatch(str: CString) returns (r: bool)
      requires Valid() && |str| < SIZE_MAX
      ensures !isValid ==> !r
      ensures isValid ==> forall p: Pattern :: p.WellFormed() && p.Text() == pattern ==>
              (r <==> MatchesAnywhere(p, str))
    {
      if !isValid {
        return false;
      }
      r := MatchRegexAnywhere(pattern, str);
    }
  }

  function FullPattern(regex: string): string {
    (if At(regex, 0) != '^' then "^" else "") + regex
    + (if |regex| == 0 || regex[|regex| - 1] != '$' then "$" else "")
  }

  ghost predicate EndsInEscapedDollar(p: Pattern) {
    !p.atEnd && p.items != [] && p.items[|p.items| - 1] == Item(true, '$', Once)
  }

  /** The pattern whose text the full pattern is: anchored at both ends, unless the
      last item is an escaped dollar sign. */
  ghost function Anchored(p: Pattern): Pattern {
    Pattern(true, p.items, !EndsInEscapedDollar(p))
  }

  lemma FullPatternIsText(p: Pattern)
    requires p.WellFormed()
    ensures Anchored(p).WellFormed() && Anchored(p).Text() == FullPattern(p.Text())
  {
    hide TailText, FullPattern;
    TailStart(p.items, p.atEnd);
    TailEnd(p.items, p.atEnd);
    FullPatternOfTail(p.Text(), TailText(p.items, p.atEnd), p.atStart,
                      p.atEnd || EndsInEscapedDollar(p));
  }

  lemma FullPatternOfTail(regex: string, tail: string, atStart: bool, dollar: bool)
    requires regex == (if atStart then "^" else "") + tail
    requires tail != "" ==> tail[0] != '^'
    requires if tail == "" then !dollar else EndsInDollar(tail, dollar)
    ensures FullPattern(regex) == "^" + tail + if dollar then "" else "$"
  {
    assert regex != "" ==> regex[|regex| - 1] == if tail == "" then '^' else tail[|tail| - 1];
    assert (if At(regex, 0) != '^' then "^" else "") + regex == "^" + tail;
  }

  ghost predicate EndsInDollar(t: string, dollar: bool) {
    t != "" && (t[|t| - 1] == '$' <==> dollar)
  }

  lemma {:induction false} TailEnd(items: seq<Item>, atEnd: bool)
    requires Pattern(false, items, atEnd).WellFormed()
    ensures TailText(items, true) == TailText(items, false) + "$"
    ensures items != [] ==> EndsInDollar(TailText(items, false), items[|items| - 1] == Item(true, '$', Once))
  {
    if items != [] {
      TailEnd(items[1..], atEnd);
      ItemEnd(items[0]);
      hide Item.Text, Item.WellFormed, IsPlain, IsValidEscape;
      var x, t := items[0].Text(), TailText(items[1..], false);
      if |items| == 1 {
        assert x + t == x;
      } else {
        assert (x + t)[|x + t| - 1] == t[|t| - 1];
      }
    }
  }

  lemma ItemEnd(item: Item)
    requires item.WellFormed()
    ensures EndsInDollar(item.Text(), item == Item(true, '$', Once))
  {
    PlainIsNotSpecial(item.c);
    hide IsPlain, IsValidEscape;
    var x := item.Text();
    assert x[|x| - 1] == '$' <==> item.repeat == Once && item.c == '$';
  }

  /** A full match is a match of the whole string exactly when the regex does not
      end in an escaped dollar sign. */
  lemma FullMatchIsWholeMatch(p: Pattern)
    requires p.WellFormed()
    ensures (forall str: CString :: MatchesAnywhere(Anchored(p), str) <==> InLanguage(p.items, str)) <==>
            !EndsInEscapedDollar(p)
  {
    if EndsInEscapedDollar(p) {
      var w := SomeWord(p.items);
      var str: CString := w + "x";
      assert str[0..][..|w|] == w;
      assert MatchesPrefix(p.items, false, str[0..]);
      assert MatchesAnywhere(Anchored(p), str);
      if InLanguage(p.items, str) {
        LastCharOfWord(p.items, str);
      }
    } else {
      forall str: CString
        ensures MatchesAnywhere(Anchored(p), str) <==> InLanguage(p.items, str)
      {
        AnchoredMeaning(p, str);
      }
    }
  }

  lemma AnchoredMeaning(p: Pattern, str: string)
    ensures MatchesAnywhere(Anchored(p), str) <==>
            if EndsInEscapedDollar(p) then MatchesPrefix(p.items, false, str) else InLanguage(p.items, str)
  {
    hide InLanguage;
    assert str[0..] == str && str[..|str|] == str;
    if EndsInEscapedDollar(p) {
      assert MatchesPrefix(p.items, false, str) ==> MatchesPrefix(p.items, false, str[0..]);
    } else if InLanguage(p.items, str) {
      assert MatchesPrefix(p.items, true, str[0..]);
    }
  }

  lemma {:induction false} SomeWord(items: seq<Item>) returns (w: CString)
    requires Pattern(false, items, false).WellFormed()
    ensures InLanguage(items, w)
  {
    w := "";
    if items != [] {
      var rest := SomeWord(items[1..]);
      var ch := SomeChar(items[0]);
      w := [ch] + rest;
      assert w[1..] == rest && AllMatch(items[0], w, 1);
    }
  }

  lemma SomeChar(x: Item) returns (ch: char)
    requires x.WellFormed()
    ensures ch != '\0' && x.MatchesChar(ch)
  {
    ch :=
      if !x.escaped then x.c
      else match x.c
           case 'd' => '0' case 'D' => 'a' case 'f' => '\U{000C}' case 'n' => '\n' case 'r' => '\r'
           case 's' => ' ' case 'S' => 'a' case 't' => '\t' case 'v' => '\U{000B}' case 'w' => 'a' case 'W' => ' '
           case _ => x.c;
  }

  lemma {:induction false} LastCharOfWord(items: seq<Item>, w: string)
    requires items != [] && items[|items| - 1] == Item(true, '$', Once) && InLanguage(items, w)
    ensures w != "" && w[|w| - 1] == '$'
  {
    var k :| 0 <= k <= |w| && items[0].repeat.Allows(k) && AllMatch(items[0], w, k) && InLanguage(items[1..], w[k..]);
    if |items| == 1 {
      assert w[k..] == "" && k == 1 && items[0].MatchesChar(w[0]);
    } else {
      LastCharOfWord(items[1..], w[k..]);
    }
  }
}
