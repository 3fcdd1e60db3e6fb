/**
 Passwords made from a site's rules: the rules are parsed into a length, an
 alphabet and required classes; the buffer is filled, the required bytes are put
 in front, and everything is shuffled. Random bytes are arguments.
 */
module Passgen {
  import opened Protocol

  type Byte = x: nat | x < 256

  const UPPERS := "ABCDEFGHJKLMNPQRSTUVWXYZ"
  const LOWERS := "abcdefghijkmnopqrstuvwxyz"
  const DIGITS := "23456789"
  const SPECIALS := "-~!@#$%^&*_+"
  const ALPHABET := "ABCDEFGHJKLMNPQRSTUVWXYZabcdefghijkmnopqrstuvwxyz23456789"
  const PRINTABLE := UPPERS + LOWERS + DIGITS + SPECIALS + "=?/;:,.()"

  datatype Error =
    BadNumber | MinAboveMax | BadLength | TooManyClasses | UnknownClass | NotAllowed |
    EmptyAlphabet | NoRandom

  function ClassAlphabet(class_: string): string {
    if class_ in ["upper", "uppercase"] then UPPERS
    else if class_ in ["lower", "lowercase"] then LOWERS
    else if class_ in ["digit", "digits"] then DIGITS
    else if class_ in ["special", "special-char", "special-chars"] then SPECIALS
    else if class_ == "ascii-printable" then PRINTABLE
    else ""
  }

  predicate Known(class_: string) {
    ClassAlphabet(class_) != ""
  }

  // ---- the text of the rules ----

  predicate IsSpace(c: char) {
    c in "\t\n\r \U{000B}\U{000C}\U{0085}\U{00A0}\U{1680}\U{2028}\U{2029}\U{202F}\U{205F}\U{3000}"
    || '\U{2000}' <= c <= '\U{200A}'
  }

  predicate IsBracket(c: char) {
    c == '[' || c == ']'
  }

  function TrimLeft(s: string, cut: char -> bool): (r: string)
    ensures |r| <= |s| && r == s[|s| - |r|..] && (r != [] ==> !cut(r[0]))
  {
    if s != [] && cut(s[0]) then TrimLeft(s[1..], cut) else s
  }

  function TrimRight(s: string, cut: char -> bool): (r: string)
    ensures r <= s && (r != [] ==> !cut(r[|r| - 1]))
  {
    if s != [] && cut(s[|s| - 1]) then TrimRight(s[..|s| - 1], cut) else s
  }

  function Trim(s: string, cut: char -> bool): string {
    TrimRight(TrimLeft(s, cut), cut)
  }

  function TrimSpace(s: string): string {
    Trim(s, IsSpace)
  }

  /** Lower case, as far as it can produce a letter of a keyword: two letters outside ASCII do as well. */
  function LowerChar(c: char): char {
    if 'A' <= c <= 'Z' then c - 'A' + 'a'
    else if c == '\U{0130}' then 'i'
    else if c == '\U{212A}' then 'k'
    else c
  }

  function ToLower(s: string): string {
    seq(|s|, i requires 0 <= i < |s| => LowerChar(s[i]))
  }

  /** The text before the first character that stops, and what follows it. */
  function Cut(s: string, stop: char -> bool): (r: Option<(string, string)>)
    ensures r.Some? ==>
              var (before, after) := r.value;
              && |before| < |s| && stop(s[|before|]) && s == before + [s[|before|]] + after
              && forall i :: 0 <= i < |before| ==> !stop(before[i])
    ensures r.None? ==> forall i :: 0 <= i < |s| ==> !stop(s[i])
  {
    if s == [] then None
    else if stop(s[0]) then Some(("", s[1..]))
    else
      match Cut(s[1..], stop)
      case None => None
      case Some((before, after)) => Some(([s[0]] + before, after))
  }

  function Split(s: string, stop: char -> bool): (parts: seq<string>)
    ensures parts != []
    decreases |s|
  {
    match Cut(s, stop)
    case None => [s]
    case Some((before, after)) => [before] + Split(after, stop)
  }

  function Joined(parts: seq<string>, separator: char): string {
    if parts == [] then ""
    else if |parts| == 1 then parts[0]
    else parts[0] + [separator] + Joined(parts[1..], separator)
  }

  /** Splitting loses nothing and leaves no separator in a part. */
  lemma {:induction false} SplitJoins(s: string, separator: char, stop: char -> bool)
    requires forall c :: stop(c) <==> c == separator
    ensures Joined(Split(s, stop), separator) == s
    ensures forall part :: part in Split(s, stop) ==> separator !in part
    decreases |s|
  {
    match Cut(s, stop)
    case None =>
    case Some((before, after)) =>
      SplitJoins(after, separator, stop);
      assert Split(s, stop)[1..] == Split(after, stop);
  }

  /** The classes of a rule's value: lower-cased, the empty ones dropped. */
  function Cleaned(parts: seq<string>): seq<string> {
    if parts == [] then []
    else
      var last := ToLower(TrimSpace(parts[|parts| - 1]));
      Cleaned(parts[..|parts| - 1]) + (if last == "" then [] else [last])
  }

  function Classes(value: string): seq<string> {
    Cleaned(Split(Trim(value, IsBracket), c => c == ',' || c == ' '))
  }

  predicate IsDigit(c: char) {
    '0' <= c <= '9'
  }

  function Decimal(s: string): nat {
    if s == [] then 0
    else Decimal(s[..|s| - 1]) * 10 + (if IsDigit(s[|s| - 1]) then (s[|s| - 1] - '0') as nat else 0)
  }

  predicate AllDigits(s: string) {
    forall i :: 0 <= i < |s| ==> IsDigit(s[i])
  }

  /** A signed decimal that fits 64 bits. */
  function Atoi(s: string): Option<int> {
    var signed := s != [] && (s[0] == '+' || s[0] == '-');
    var text := if signed then s[1..] else s;
    if text == [] || !AllDigits(text) then None
    else
      var n: int := Decimal(text);
      var v := if signed && s[0] == '-' then -n else n;
      if -0x8000_0000_0000_0000 <= v < 0x8000_0000_0000_0000 then Some(v) else None
  }

  // ---- what the parts of the text mean ----

  /** Trimming takes what is to be cut off both ends, and stops there. */
  lemma TrimMeans(s: string, cut: char -> bool) returns (front: string, back: string)
    ensures s == front + Trim(s, cut) + back
    ensures forall i :: 0 <= i < |front| ==> cut(front[i])
    ensures forall i :: 0 <= i < |back| ==> cut(back[i])
    ensures var t := Trim(s, cut); t != [] ==> !cut(t[0]) && !cut(t[|t| - 1])
  {
    hide TrimLeft, TrimRight;
    var rest := TrimLeft(s, cut);
    front := s[..|s| - |rest|];
    back := rest[|Trim(s, cut)|..];
    LeftIsCut(s, cut);
    RightIsCut(rest, cut);
    assert Trim(s, cut) != [] ==> Trim(s, cut)[0] == rest[0];
  }

  lemma {:induction false} LeftIsCut(s: string, cut: char -> bool)
    ensures forall i :: 0 <= i < |s| - |TrimLeft(s, cut)| ==> cut(s[i])
  {
    if s != [] && cut(s[0]) {
      LeftIsCut(s[1..], cut);
      forall i | 0 < i < |s| - |TrimLeft(s, cut)|
        ensures cut(s[i])
      {
        assert s[1..][i - 1] == s[i];
      }
    }
  }

  lemma {:induction false} RightIsCut(s: string, cut: char -> bool)
    ensures forall i :: |TrimRight(s, cut)| <= i < |s| ==> cut(s[i])
  {
    if s != [] && cut(s[|s| - 1]) {
      RightIsCut(s[..|s| - 1], cut);
    }
  }

  /** A number in decimal, the way it is written. */
  function Written(n: nat): (s: string)
    ensures s != [] && forall i :: 0 <= i < |s| ==> IsDigit(s[i])
  {
    if n < 10 then ['0' + n as char] else Written(n / 10) + ['0' + (n % 10) as char]
  }

  lemma {:induction false} DecimalOfWritten(n: nat)
    ensures Decimal(Written(n)) == n
  {
    var s := Written(n);
    assert [s[|s| - 1]][..0] == [];
    if n < 10 {
      assert s[..0] == [];
    } else {
      DecimalOfWritten(n / 10);
      assert s[..|s| - 1] == Written(n / 10);
    }
  }

  /** What is written in decimal, with a sign or without, is read back while it fits 64 bits, and refused beyond. */
  lemma WrittenIsRead(n: nat)
    ensures Atoi(Written(n)) == (if n < 0x8000_0000_0000_0000 then Some(n) else None)
    ensures Atoi("+" + Written(n)) == Atoi(Written(n))
    ensures var m: int := n;
            Atoi("-" + Written(n)) == (if n <= 0x8000_0000_0000_0000 then Some(-m) else None)
  {
    hide Decimal, Written;
    DecimalOfWritten(n);
    var s := Written(n);
    assert IsDigit(s[0]);
    assert ("+" + s)[1..] == s && ("-" + s)[1..] == s;
  }

  /** What is read has at least one digit and nothing but digits after at most one sign. */
  lemma OnlyNumbersAreRead(s: string)
    ensures Atoi(s).Some? ==>
              && s != [] && (IsDigit(s[0]) || (|s| > 1 && (s[0] == '+' || s[0] == '-')))
              && forall i :: 0 < i < |s| ==> IsDigit(s[i])
  {
    if Atoi(s).Some? {
      var signed := s[0] == '+' || s[0] == '-';
      var text := if signed then s[1..] else s;
      assert AllDigits(text);
      assert !signed ==> text[0] == s[0];
      forall i | 0 < i < |s|
        ensures IsDigit(s[i])
      {
        assert s[i] == text[if signed then i - 1 else i];
      }
    }
  }

  // ---- rules ----

  datatype Rule =
    | Other
    | MinLength(value: Option<int>)
    | MaxLength(value: Option<int>)
    | Required(classes: seq<string>)
    | Allowed(classes: seq<string>)

  function RuleOf(part: string): Rule {
    match Cut(TrimSpace(part), c => c == ':')
    case None => Other
    case Some((k, v)) =>
      var key := ToLower(TrimSpace(k));
      var value := TrimSpace(v);
      if key == "minlength" then MinLength(Atoi(value))
      else if key == "maxlength" then MaxLength(Atoi(value))
      else if key == "required" then Required(Classes(value))
      else if key == "allowed" then Allowed(Classes(value))
      else Other
  }

  // ---- what a rule's text means ----

  /** Lower-casing gives a keyword exactly when the text spells it, in capitals or not; two letters outside ASCII pass as well. */
  lemma SpellsIff(s: string, word: string)
    requires forall i :: 0 <= i < |word| ==> 'a' <= word[i] <= 'z' || word[i] == '-'
    ensures ToLower(s) == word <==>
            && |s| == |word|
            && forall i :: 0 <= i < |s| ==>
                 || s[i] == word[i]
                 || (word[i] != '-' && s[i] as int == word[i] as int - 32)
                 || (word[i] == 'i' && s[i] == '\U{0130}')
                 || (word[i] == 'k' && s[i] == '\U{212A}')
  {
    forall i: nat | i < |s| && i < |word|
      ensures LowerChar(s[i]) == word[i] <==>
              || s[i] == word[i]
              || (word[i] != '-' && s[i] as int == word[i] as int - 32)
              || (word[i] == 'i' && s[i] == '\U{0130}')
              || (word[i] == 'k' && s[i] == '\U{212A}')
    {
    }
    if |s| == |word| {
      assert forall i :: 0 <= i < |s| ==> ToLower(s)[i] == LowerChar(s[i]);
      assert ToLower(s) == word <==> forall i :: 0 <= i < |s| ==> ToLower(s)[i] == word[i];
    }
  }

  /** Space is what Unicode gives the property White_Space. */
  lemma SpacesAre(c: char)
    ensures IsSpace(c) <==>
            var n := c as int;
            || 9 <= n <= 13 || n == 32 || n == 133 || n == 160 || n == 5760
            || 8192 <= n <= 8202 || n == 8232 || n == 8233 || n == 8239 || n == 8287 || n == 12288
  {
  }

  /** What is left when all that can be cut is cut off both ends of a text is its trimming. */
  lemma TrimIs(front: string, middle: string, back: string, cut: char -> bool)
    requires forall i :: 0 <= i < |front| ==> cut(front[i])
    requires forall i :: 0 <= i < |back| ==> cut(back[i])
    requires middle != [] && !cut(middle[0]) && !cut(middle[|middle| - 1])
    ensures TrimLeft(front + middle + back, cut) == middle + back
    ensures TrimRight(middle + back, cut) == middle
    ensures Trim(front + middle + back, cut) == middle
  {
    LeftGoes(front, middle + back, cut);
    assert front + middle + back == front + (middle + back);
    RightGoes(middle, back, cut);
  }

  lemma {:induction false} LeftGoes(front: string, rest: string, cut: char -> bool)
    requires forall i :: 0 <= i < |front| ==> cut(front[i])
    requires rest != [] && !cut(rest[0])
    ensures TrimLeft(front + rest, cut) == rest
  {
    if front == [] {
      assert front + rest == rest;
    } else {
      assert (front + rest)[1..] == front[1..] + rest;
      LeftGoes(front[1..], rest, cut);
    }
  }

  lemma {:induction false} RightGoes(rest: string, back: string, cut: char -> bool)
    requires forall i :: 0 <= i < |back| ==> cut(back[i])
    requires rest != [] && !cut(rest[|rest| - 1])
    ensures TrimRight(rest + back, cut) == rest
  {
    if back == [] {
      assert rest + back == rest;
    } else {
      assert (rest + back)[..|rest + back| - 1] == rest + back[..|back| - 1];
      RightGoes(rest, back[..|back| - 1], cut);
    }
  }

  /** A rule is what stands before its first colon, apart from space and capitals, and what stands after it, apart from space. */
  lemma RuleMeans(k: string, v: string)
    requires ':' !in k
    ensures RuleOf(k + ":" + v) ==
            var key := ToLower(TrimSpace(k));
            if key == "minlength" then MinLength(Atoi(TrimSpace(v)))
            else if key == "maxlength" then MaxLength(Atoi(TrimSpace(v)))
            else if key == "required" then Required(Classes(TrimSpace(v)))
            else if key == "allowed" then Allowed(Classes(TrimSpace(v)))
            else Other
  {
    hide ToLower, Atoi, Classes, Cut, Trim, IsSpace;
    var kept, value := LeftOf(k), RightOf(v);
    TrimAround(k, v);
    assert TrimSpace(k + ":" + v) == kept + ":" + value;
    assert ':' !in kept;
    CutAtFirst(kept, ':', value, c => c == ':');
    SpaceOffAgain(k, v);
  }

  /** Without a colon there is no rule. */
  lemma NoColonNoRule(part: string)
    requires ':' !in part
    ensures RuleOf(part) == Other
  {
    hide Cut, Trim;
    var front, back := TrimMeans(part, IsSpace);
    var t := TrimSpace(part);
    assert forall i :: 0 <= i < |t| ==> t[i] == part[|front| + i];
  }

  function LeftOf(s: string): (r: string)
    ensures forall c :: c in r ==> c in s
  {
    TrimLeft(s, IsSpace)
  }

  function RightOf(s: string): string {
    TrimRight(s, IsSpace)
  }

  lemma {:induction false} CutAtFirst(k: string, c: char, v: string, stop: char -> bool)
    requires stop(c) && forall i :: 0 <= i < |k| ==> !stop(k[i])
    ensures Cut(k + [c] + v, stop) == Some((k, v))
  {
    var s := k + [c] + v;
    if k == [] {
      assert s[1..] == v;
    } else {
      assert s[1..] == k[1..] + [c] + v && s[0] == k[0];
      CutAtFirst(k[1..], c, v, stop);
      assert [k[0]] + k[1..] == k;
    }
  }

  lemma {:induction false} NothingToCut(s: string, stop: char -> bool)
    requires forall i :: 0 <= i < |s| ==> !stop(s[i])
    ensures Cut(s, stop) == None
  {
    if s != [] {
      NothingToCut(s[1..], stop);
    }
  }

  lemma {:induction false} AllIsTrimmed(s: string, cut: char -> bool)
    requires forall i :: 0 <= i < |s| ==> cut(s[i])
    ensures TrimRight(s, cut) == []
  {
    if s != [] {
      AllIsTrimmed(s[..|s| - 1], cut);
    }
  }

  lemma TrimAround(k: string, v: string)
    ensures TrimSpace(k + ":" + v) == LeftOf(k) + ":" + RightOf(v)
  {
    hide IsSpace, TrimLeft, TrimRight, Trim;
    var kept, value := LeftOf(k), RightOf(v);
    var front, back := k[..|k| - |kept|], v[|value|..];
    LeftIsCut(k, IsSpace);
    RightIsCut(v, IsSpace);
    assert k == front + kept && v == value + back;
    EndsAreKept(kept, value);
    TrimIs(front, kept + ":" + value, back, IsSpace);
    Around(front, kept, value, back);
  }

  lemma EndsAreKept(kept: string, value: string)
    requires (kept != [] ==> !IsSpace(kept[0])) && (value != [] ==> !IsSpace(value[|value| - 1]))
    ensures var middle := kept + ":" + value;
            !IsSpace(middle[0]) && !IsSpace(middle[|middle| - 1])
  {
    hide IsSpace;
    ColonIsNoSpace();
    var middle := kept + ":" + value;
    assert middle[0] == if kept == [] then ':' else kept[0];
    assert middle[|middle| - 1] == if value == [] then ':' else value[|value| - 1];
  }

  lemma Around(front: string, kept: string, value: string, back: string)
    ensures (front + kept) + ":" + (value + back) == front + (kept + ":" + value) + back
  {
    hide *;
  }

  lemma ColonIsNoSpace()
    ensures !IsSpace(':')
  {
  }

  lemma SpaceOffAgain(k: string, v: string)
    ensures TrimSpace(LeftOf(k)) == TrimSpace(k) && TrimSpace(RightOf(v)) == TrimSpace(v)
  {
    hide IsSpace;
    TrimTwice(LeftOf(k));
    RightThenLeft(v);
  }

  lemma TrimTwice(s: string)
    requires s == [] || !IsSpace(s[0])
    ensures TrimLeft(s, IsSpace) == s
  {
    hide IsSpace;
  }

  /** It makes no difference which end is trimmed first. */
  lemma RightThenLeft(v: string)
    ensures TrimSpace(RightOf(v)) == TrimSpace(v)
  {
    hide IsSpace, TrimLeft, TrimRight;
    var front, back := TrimMeans(v, IsSpace);
    var t, r := TrimSpace(v), RightOf(v);
    RightIsCut(v, IsSpace);
    if t != [] {
      RightGoes(front + t, back, IsSpace);
      assert r == front + t;
      assert r == front + t + [];
      TrimIs(front, t, [], IsSpace);
    } else {
      assert forall i :: 0 <= i < |v| ==> IsSpace(v[i]);
      AllIsTrimmed(v, IsSpace);
      TrimTwice([]);
    }
  }

  // ---- lists of classes ----

  /** A name a class could have: not empty, in lower case, with nothing in it that separates or is cut off. */
  predicate Plain(word: string) {
    word != "" && forall i :: 0 <= i < |word| ==> 'a' <= word[i] <= 'z' || word[i] == '-'
  }

  lemma {:induction false} SplitOfJoined(words: seq<string>, separator: char, stop: char -> bool)
    requires words != [] && stop(separator)
    requires forall i, j :: 0 <= i < |words| && 0 <= j < |words[i]| ==> !stop(words[i][j])
    ensures Split(Joined(words, separator), stop) == words
    decreases |words|
  {
    hide Cut;
    var s := Joined(words, separator);
    if |words| == 1 {
      NothingToCut(s, stop);
    } else {
      var rest := Joined(words[1..], separator);
      assert s == words[0] + [separator] + rest;
      CutAtFirst(words[0], separator, rest, stop);
      SplitOfJoined(words[1..], separator, stop);
    }
  }

  lemma {:induction false} PlainAreKept(words: seq<string>)
    requires forall i :: 0 <= i < |words| ==> Plain(words[i])
    ensures Cleaned(words) == words
  {
    hide ToLower, Trim, TrimSpace, Plain;
    if words != [] {
      var last := words[|words| - 1];
      PlainAreKept(words[..|words| - 1]);
      PlainIsKept(last);
    }
  }

  lemma PlainIsKept(word: string)
    requires Plain(word)
    ensures ToLower(TrimSpace(word)) == word != ""
  {
    hide Trim, ToLower;
    TrimIs([], word, [], IsSpace);
    assert [] + word + [] == word;
    SpellsIff(word, word);
  }

  /** The classes of any parts at all are those parts, trimmed and in lower case, that are not empty. */
  lemma {:induction false} CleanedIff(parts: seq<string>, class_: string)
    ensures class_ in Cleaned(parts) <==>
            class_ != "" && exists i: nat :: i < |parts| && ToLower(TrimSpace(parts[i])) == class_
  {
    hide ToLower, TrimSpace;
    if parts != [] {
      var front := parts[..|parts| - 1];
      CleanedIff(front, class_);
      assert forall i: nat :: i < |front| ==> front[i] == parts[i];
    }
  }

  /** A list of names, separated by commas or by spaces, in brackets or not, is read as those names in that order. */
  lemma ListIsRead(words: seq<string>, separator: char)
    requires words != [] && separator in ", " && forall i :: 0 <= i < |words| ==> Plain(words[i])
    ensures Classes("[" + Joined(words, separator) + "]") == words
    ensures Classes(Joined(words, separator)) == words
  {
    hide Trim, Split, Cleaned, Joined;
    var s := Joined(words, separator);
    JoinedHasEnds(words, separator);
    BracketsGo(s);
    SplitOfJoined(words, separator, c => c == ',' || c == ' ');
    PlainAreKept(words);
  }

  lemma BracketsGo(s: string)
    requires s != [] && !IsBracket(s[0]) && !IsBracket(s[|s| - 1])
    ensures Trim("[" + s + "]", IsBracket) == s == Trim(s, IsBracket)
  {
    hide Trim, TrimLeft, TrimRight;
    TrimIs("[", s, "]", IsBracket);
    TrimIs([], s, [], IsBracket);
    assert [] + s + [] == s;
  }

  lemma {:induction false} JoinedHasEnds(words: seq<string>, separator: char)
    requires words != [] && forall i :: 0 <= i < |words| ==> Plain(words[i])
    ensures var s := Joined(words, separator);
            s != [] && !IsBracket(s[0]) && !IsBracket(s[|s| - 1])
  {
    if |words| > 1 {
      JoinedHasEnds(words[1..], separator);
    }
  }

  // ---- what the rules declare ----

  datatype Wish = Wish(minimum: int, maximum: int, required: seq<string>, allowed: seq<string>)

  function Heed(w: Wish, r: Rule): Result<Wish, Error> {
    match r
    case Other => Ok(w)
    case MinLength(v) => if v.Some? then Ok(w.(minimum := v.value)) else Err(BadNumber)
    case MaxLength(v) => if v.Some? then Ok(w.(maximum := v.value)) else Err(BadNumber)
    case Required(classes) => Ok(w.(required := w.required + classes))
    case Allowed(classes) => Ok(w.(allowed := w.allowed + classes))
  }

  function Wished(parts: seq<string>): Result<Wish, Error> {
    if parts == [] then Ok(Wish(12, 128, [], []))
    else
      match Wished(parts[..|parts| - 1])
      case Err(e) => Err(e)
      case Ok(w) => Heed(w, RuleOf(parts[|parts| - 1]))
  }

  predicate Unreadable(part: string) {
    var r := RuleOf(part);
    (r.MinLength? || r.MaxLength?) && r.value.None?
  }

  function Parts(rules: string): seq<string> {
    Split(rules, c => c == ';')
  }

  /** Twenty, held between the two lengths. */
  function Length(w: Wish): int {
    var n := if w.minimum > 20 then w.minimum else 20;
    if w.maximum < n then w.maximum else n
  }

  // ---- alphabets ----

  function Letters(classes: seq<string>): (letters: set<char>) {
    set i, j | 0 <= i < |classes| && 0 <= j < |ClassAlphabet(classes[i])| :: ClassAlphabet(classes[i])[j]
  }

  function Chars(s: string): set<char> {
    set c | c in s
  }

  /** Adds the letters of a class, each letter once, keeping the order in which they came. */
  method UnionAlphabet(have: string, class_: string) returns (r: string)
    ensures Chars(r) == Chars(have) + Chars(ClassAlphabet(class_))
    ensures Known(class_) || Distinct(have) ==> Distinct(r)
    ensures Distinct(have) ==> have <= r
  {
    hide ClassAlphabet;
    var add := ClassAlphabet(class_);
    if add == "" {
      return have;
    }
    var seen: set<char> := {};
    r := "";
    for i := 0 to |have|
      invariant seen == Chars(r) == Chars(have[..i]) && Distinct(r)
      invariant Distinct(have) ==> r == have[..i]
    {
      assert have[..i + 1] == have[..i] + [have[i]];
      if have[i] !in seen {
        seen := seen + {have[i]};
        r := r + [have[i]];
      }
    }
    assert have[..|have|] == have;
    for i := 0 to |add|
      invariant seen == Chars(r) == Chars(have) + Chars(add[..i]) && Distinct(r)
      invariant Distinct(have) ==> have <= r
    {
      assert add[..i + 1] == add[..i] + [add[i]];
      if add[i] !in seen {
        seen := seen + {add[i]};
        r := r + [add[i]];
      }
    }
    assert add[..|add|] == add;
  }

  // ---- the parsed rules ----

  datatype Spec = Spec(n: nat, alphabet: string, required: seq<string>)

  predicate Meets(class_: string, letters: set<char>) {
    exists j :: 0 <= j < |ClassAlphabet(class_)| && ClassAlphabet(class_)[j] in letters
  }

  /** The first of the required classes from the k-th on that stands in the way, and how. */
  function ClassFault(w: Wish, k: nat): Option<Error>
    requires k <= |w.required|
    decreases |w.required| - k
  {
    if k == |w.required| then None
    else if !Known(w.required[k]) then Some(UnknownClass)
    else if w.allowed != [] && !Meets(w.required[k], Letters(w.allowed)) then Some(NotAllowed)
    else ClassFault(w, k + 1)
  }

  function Fault(w: Wish): Option<Error> {
    if w.minimum > w.maximum then Some(MinAboveMax)
    else if Length(w) < 12 || Length(w) > 128 then Some(BadLength)
    else if |w.required| > Length(w) then Some(TooManyClasses)
    else if ClassFault(w, 0).Some? then ClassFault(w, 0)
    else if w.allowed != [] && Letters(w.allowed) == {} then Some(EmptyAlphabet)
    else None
  }

  /** What the letters of a password may be: those allowed, or else the default ones and those required. */
  function Permitted(w: Wish): set<char> {
    if w.allowed != [] then Letters(w.allowed) else Chars(ALPHABET) + Letters(w.required)
  }

  lemma LettersGrow(classes: seq<string>, k: nat)
    requires k < |classes|
    ensures Letters(classes[..k + 1]) == Letters(classes[..k]) + Chars(ClassAlphabet(classes[k]))
  {
    hide ClassAlphabet;
    var more, class_ := classes[..k + 1], ClassAlphabet(classes[k]);
    forall c | c in Chars(class_)
      ensures c in Letters(more)
    {
      var j :| 0 <= j < |class_| && class_[j] == c;
      assert more[k] == classes[k];
      assert ClassAlphabet(more[k])[j] == c;
    }
    forall c | c in Letters(classes[..k])
      ensures c in Letters(more)
    {
      var i, j :| 0 <= i < k && 0 <= j < |ClassAlphabet(classes[..k][i])| && ClassAlphabet(classes[..k][i])[j] == c;
      assert more[i] == classes[..k][i];
    }
    forall c | c in Letters(more)
      ensures c in Letters(classes[..k]) + Chars(class_)
    {
      var i, j :| 0 <= i < k + 1 && 0 <= j < |ClassAlphabet(more[i])| && ClassAlphabet(more[i])[j] == c;
      if i < k {
        assert more[i] == classes[..k][i];
      }
    }
  }

  lemma LettersOfNone()
    ensures Letters([]) == {}
  {
  }

  /** The loop over the rules, the last of two contrary rules winning. */
  method ReadWish(parts: seq<string>) returns (r: Result<Wish, Error>)
    ensures r == Wished(parts)
  {
    hide RuleOf;
    var minimum, maximum := 12, 128;
    var required, allowed := [], [];
    for i := 0 to |parts|
      invariant Wished(parts[..i]) == Ok(Wish(minimum, maximum, required, allowed))
    {
      assert parts[..i + 1][..i] == parts[..i];
      match RuleOf(parts[i])
      case Other =>
      case MinLength(v) =>
        if v.None? {
          UnreadableStops(parts, i);
          return Err(BadNumber);
        }
        minimum := v.value;
      case MaxLength(v) =>
        if v.None? {
          UnreadableStops(parts, i);
          return Err(BadNumber);
        }
        maximum := v.value;
      case Required(classes) => required := required + classes;
      case Allowed(classes) => allowed := allowed + classes;
    }
    assert parts[..|parts|] == parts;
    return Ok(Wish(minimum, maximum, required, allowed));
  }

  lemma {:induction false} UnreadableStops(parts: seq<string>, i: nat)
    requires i < |parts| && Unreadable(parts[i])
    ensures Wished(parts) == Err(BadNumber)
  {
    hide RuleOf;
    var n := |parts| - 1;
    if i < n {
      UnreadableStops(parts[..n], i);
    } else {
      WishedOrBadNumber(parts[..n]);
    }
  }

  lemma {:induction false} WishedOrBadNumber(parts: seq<string>)
    ensures Wished(parts).Err? ==> Wished(parts) == Err(BadNumber)
  {
    hide RuleOf;
    if parts != [] {
      WishedOrBadNumber(parts[..|parts| - 1]);
    }
  }

  /** What rules declare is refused exactly when one of its lengths is not a number. */
  lemma {:induction false} RefusedIff(parts: seq<string>)
    ensures Wished(parts) == Err(BadNumber) || Wished(parts).Ok?
    ensures Wished(parts).Err? <==> exists i: nat :: i < |parts| && Unreadable(parts[i])
  {
    hide RuleOf, Unreadable;
    WishedOrBadNumber(parts);
    if parts != [] {
      var n := |parts| - 1;
      RefusedIff(parts[..n]);
      if Wished(parts[..n]).Err? {
        var i: nat :| i < n && Unreadable(parts[..n][i]);
        assert Unreadable(parts[i]);
      } else {
        ReadableIsHeeded(parts);
      }
      forall i: nat | i < n && Unreadable(parts[i])
        ensures Wished(parts[..n]).Err?
      {
        assert Unreadable(parts[..n][i]);
      }
    }
  }

  lemma ReadableIsHeeded(parts: seq<string>)
    requires parts != [] && Wished(parts[..|parts| - 1]).Ok?
    ensures Wished(parts).Ok? <==> !Unreadable(parts[|parts| - 1])
  {
    hide RuleOf;
  }

  /** Of the rules for a length the last one counts; without one it is 12 at least and 128 at most. */
  lemma {:induction false} LastLengthCounts(parts: seq<string>, i: nat)
    requires Wished(parts).Ok?
    ensures var w := Wished(parts).value;
            && ((forall j: nat :: j < |parts| ==> !RuleOf(parts[j]).MinLength?) ==> w.minimum == 12)
            && ((forall j: nat :: j < |parts| ==> !RuleOf(parts[j]).MaxLength?) ==> w.maximum == 128)
            && (i < |parts| && RuleOf(parts[i]).MinLength? ==>
                  (forall j: nat :: i < j < |parts| ==> !RuleOf(parts[j]).MinLength?) ==>
                    RuleOf(parts[i]).value == Some(w.minimum))
            && (i < |parts| && RuleOf(parts[i]).MaxLength? ==>
                  (forall j: nat :: i < j < |parts| ==> !RuleOf(parts[j]).MaxLength?) ==>
                    RuleOf(parts[i]).value == Some(w.maximum))
  {
    hide RuleOf;
    if parts != [] {
      var front := parts[..|parts| - 1];
      assert forall j :: 0 <= j < |front| ==> front[j] == parts[j];
      LastLengthCounts(front, i);
    }
  }

  /** Classes add up over the rules: those required are the ones some rule requires, and so for those allowed. */
  lemma {:induction false} ClassesAddUp(parts: seq<string>, class_: string)
    requires Wished(parts).Ok?
    ensures class_ in Wished(parts).value.required <==>
            exists i: nat :: i < |parts| && RuleOf(parts[i]).Required? && class_ in RuleOf(parts[i]).classes
    ensures class_ in Wished(parts).value.allowed <==>
            exists i: nat :: i < |parts| && RuleOf(parts[i]).Allowed? && class_ in RuleOf(parts[i]).classes
  {
    hide RuleOf;
    if parts != [] {
      var n := |parts| - 1;
      var front := parts[..n];
      assert forall j :: 0 <= j < n ==> front[j] == parts[j];
      ClassesAddUp(front, class_);
    }
  }

  /** Unions of the classes given, in order. */
  method Collect(classes: seq<string>) returns (r: string)
    ensures Chars(r) == Letters(classes) && Distinct(r)
  {
    hide ClassAlphabet;
    r := "";
    for i := 0 to |classes|
      invariant Chars(r) == Letters(classes[..i]) && Distinct(r)
    {
      LettersGrow(classes, i);
      r := UnionAlphabet(r, classes[i]);
    }
    assert classes[..|classes|] == classes;
  }

  /** Whether a letter of the class occurs in the alphabet. */
  method Overlaps(class_: string, alphabet: string) returns (ok: bool)
    ensures ok == Meets(class_, Chars(alphabet))
  {
    hide ClassAlphabet;
    var need := ClassAlphabet(class_);
    for j := 0 to |need|
      invariant forall k :: 0 <= k < j ==> need[k] !in alphabet
    {
      if need[j] in alphabet {
        return true;
      }
    }
    return false;
  }

  /**
   Rules are refused for the first thing wrong with them. Otherwise the length is twenty held between the two
   lengths, and the alphabet has the permitted letters, each once unless it is the default alphabet itself.
   */
  method ParseRules(rules: string) returns (r: Result<Spec, Error>)
    ensures Wished(Parts(rules)).Err? ==> r == Err(BadNumber)
    ensures Wished(Parts(rules)).Ok? ==>
              var w := Wished(Parts(rules)).value;
              match Fault(w)
              case Some(e) => r == Err(e)
              case None =>
                && r.Ok? && r.value.n == Length(w) && r.value.required == w.required
                && Chars(r.value.alphabet) == Permitted(w) && r.value.alphabet != ""
                && (r.value.alphabet == ALPHABET || Distinct(r.value.alphabet))
  {
    hide ClassAlphabet, Parts, Wished, Letters, Distinct, Meets;
    var wish := ReadWish(Parts(rules));
    if wish.Err? {
      WishedOrBadNumber(Parts(rules));
      return Err(BadNumber);
    }
    var w := wish.value;
    var n := 20;
    if w.minimum > w.maximum {
      return Err(MinAboveMax);
    }
    if w.minimum > n {
      n := w.minimum;
    }
    if w.maximum < n {
      n := w.maximum;
    }
    if n < 12 || n > 128 {
      return Err(BadLength);
    }
    if |w.required| > n {
      return Err(TooManyClasses);
    }
    var alphabet := ALPHABET;
    if w.allowed != [] {
      alphabet := Collect(w.allowed);
    }
    LettersOfNone();
    assert w.required[..0] == [];
    for i := 0 to |w.required|
      invariant ClassFault(w, 0) == ClassFault(w, i)
      invariant w.allowed != [] ==> Chars(alphabet) == Letters(w.allowed) && Distinct(alphabet)
      invariant w.allowed == [] ==> Chars(alphabet) == Chars(ALPHABET) + Letters(w.required[..i])
      invariant w.allowed == [] ==> alphabet == ALPHABET || Distinct(alphabet)
    {
      if !Known(w.required[i]) {
        return Err(UnknownClass);
      }
      if w.allowed != [] {
        var ok := Overlaps(w.required[i], alphabet);
        if !ok {
          return Err(NotAllowed);
        }
      } else {
        LettersGrow(w.required, i);
        alphabet := UnionAlphabet(alphabet, w.required[i]);
      }
    }
    assert w.required[..|w.required|] == w.required;
    if alphabet == "" {
      assert ALPHABET[0] in Chars(ALPHABET);
      return Err(EmptyAlphabet);
    }
    assert alphabet[0] in Chars(alphabet);
    return Ok(Spec(n, alphabet, w.required));
  }

  /** The rules are in order exactly when their lengths leave one between 12 and 128, with room for the classes required. */
  lemma FaultFreeIff(w: Wish)
    ensures Fault(w).None? <==>
            && w.minimum <= w.maximum && w.minimum <= 128 && 12 <= w.maximum
            && (|w.required| <= 20 || |w.required| <= w.minimum) && |w.required| <= w.maximum
            && (forall i: nat :: i < |w.required| ==>
                  && ClassAlphabet(w.required[i]) != ""
                  && (w.allowed != [] ==> Meets(w.required[i], Letters(w.allowed))))
            && (w.allowed != [] ==> exists i: nat :: i < |w.allowed| && ClassAlphabet(w.allowed[i]) != "")
  {
    hide ClassAlphabet, Letters, Meets;
    NoFaultIff(w, 0);
    SomeLettersIff(w.allowed);
  }

  lemma {:induction false} NoFaultIff(w: Wish, k: nat)
    requires k <= |w.required|
    ensures ClassFault(w, k).None? <==>
            forall i: nat :: k <= i < |w.required| ==>
              && Known(w.required[i])
              && (w.allowed != [] ==> Meets(w.required[i], Letters(w.allowed)))
    decreases |w.required| - k
  {
    hide ClassAlphabet, Letters, Meets, Known;
    if k < |w.required| {
      NoFaultIff(w, k + 1);
    }
  }

  lemma SomeLettersIff(classes: seq<string>)
    ensures Letters(classes) != {} <==> exists i: nat :: i < |classes| && ClassAlphabet(classes[i]) != ""
  {
    hide ClassAlphabet;
    if i: nat :| i < |classes| && ClassAlphabet(classes[i]) != "" {
      assert ClassAlphabet(classes[i])[0] in Letters(classes);
    }
    if Letters(classes) != {} {
      var c :| c in Letters(classes);
      var i: nat, j: nat :| i < |classes| && j < |ClassAlphabet(classes[i])| && ClassAlphabet(classes[i])[j] == c;
    }
  }

  /** The rules are the stretches of text between semicolons. */
  lemma PartsAreBetweenSemicolons(rules: string)
    ensures Joined(Parts(rules), ';') == rules && forall part :: part in Parts(rules) ==> ';' !in part
  {
    SplitJoins(rules, ';', c => c == ';');
  }

  lemma LettersIff(classes: seq<string>, c: char)
    ensures c in Letters(classes) <==> exists i: nat :: i < |classes| && c in ClassAlphabet(classes[i])
  {
    hide ClassAlphabet;
    if i: nat :| i < |classes| && c in ClassAlphabet(classes[i]) {
      LetterIn(classes, i, c);
    }
    if c in Letters(classes) {
      var i: nat, j: nat :| i < |classes| && j < |ClassAlphabet(classes[i])| && ClassAlphabet(classes[i])[j] == c;
    }
  }

  /** A letter is permitted by the classes allowed, and where there are none, by default or by a class that is required. */
  lemma PermittedIff(w: Wish, c: char)
    ensures w.allowed != [] ==>
              (c in Permitted(w) <==> exists i: nat :: i < |w.allowed| && c in ClassAlphabet(w.allowed[i]))
    ensures w.allowed == [] ==>
              (c in Permitted(w) <==>
                 c in ALPHABET || exists i: nat :: i < |w.required| && c in ClassAlphabet(w.required[i]))
  {
    hide ClassAlphabet, Letters;
    LettersIff(w.allowed, c);
    LettersIff(w.required, c);
  }

  lemma MeetsIff(class_: string, letters: set<char>)
    ensures Meets(class_, letters) <==> exists c :: c in letters && c in ClassAlphabet(class_)
  {
    hide ClassAlphabet;
    if Meets(class_, letters) {
      var j :| 0 <= j < |ClassAlphabet(class_)| && ClassAlphabet(class_)[j] in letters;
      assert ClassAlphabet(class_)[j] in ClassAlphabet(class_);
    }
  }

  /** A length that the rules name is the one taken when it is twenty or more, or the most that they allow. */
  lemma LengthMeans(w: Wish)
    requires w.minimum <= w.maximum
    ensures w.minimum <= Length(w) <= w.maximum || (w.maximum < 20 && Length(w) == w.maximum)
    ensures w.minimum <= 20 <= w.maximum ==> Length(w) == 20
    ensures 20 <= w.minimum ==> Length(w) == w.minimum
    ensures w.maximum <= 20 ==> Length(w) == w.maximum
  {
  }

  // ---- the alphabets ----

  /** Letters and digits that can be taken for one another are in none of the alphabets. */
  lemma CapitalsMean(c: char)
    ensures c in UPPERS <==> 'A' <= c <= 'Z' && c != 'I' && c != 'O'
  {
  }

  lemma SmallLettersMean(c: char)
    ensures c in LOWERS <==> 'a' <= c <= 'z' && c != 'l'
  {
  }

  lemma OtherClassesMean(c: char)
    ensures c in DIGITS <==> '2' <= c <= '9'
    ensures c in SPECIALS <==> c in "!#$%&*+-@^_~"
  {
  }

  /** The default alphabet is the letters and digits. */
  lemma DefaultAlphabetMeans(c: char)
    ensures c in ALPHABET <==> c in UPPERS || c in LOWERS || c in DIGITS
  {
    assert ALPHABET == UPPERS + LOWERS + DIGITS;
  }

  /** Ten names are known, for five classes, and no others. */
  lemma KnownNames(class_: string)
    ensures Known(class_) <==>
            class_ in ["upper", "uppercase", "lower", "lowercase", "digit", "digits",
                       "special", "special-char", "special-chars", "ascii-printable"]
    ensures ClassAlphabet("upper") == ClassAlphabet("uppercase") == UPPERS
    ensures ClassAlphabet("lower") == ClassAlphabet("lowercase") == LOWERS
    ensures ClassAlphabet("digit") == ClassAlphabet("digits") == DIGITS
    ensures ClassAlphabet("special") == ClassAlphabet("special-char") == ClassAlphabet("special-chars") == SPECIALS
    ensures ClassAlphabet("ascii-printable") == PRINTABLE
  {
  }

  /** The printable class has the letters of all others, and some more marks. */
  lemma PrintableMeans(c: char)
    ensures c in PRINTABLE <==> c in UPPERS || c in LOWERS || c in DIGITS || c in SPECIALS || c in "().,:;?/="
  {
    assert c in PRINTABLE <==> c in UPPERS || c in LOWERS || c in DIGITS || c in SPECIALS || c in "=?/;:,.()";
  }

  // ---- filling, placing and shuffling ----

  /** The reads of the random source; any of them may fail. */
  datatype Random = Random(fill: Option<nat -> Byte>, picks: nat -> Option<Byte>, mix: Option<nat -> Byte>)

  function Pick(letters: string, b: Byte): char
    requires letters != ""
  {
    letters[b % |letters|]
  }

  function Filled(n: nat, alphabet: string, fill: nat -> Byte): (r: string)
    requires alphabet != ""
    ensures |r| == n
  {
    seq(n, i requires 0 <= i < n => Pick(alphabet, fill(i)))
  }

  /** Any text over an alphabet can be drawn. */
  lemma EveryTextCanCome(text: string, alphabet: string) returns (fill: nat -> Byte)
    requires 0 < |alphabet| <= 256 && forall i :: 0 <= i < |text| ==> text[i] in alphabet
    ensures Filled(|text|, alphabet, fill) == text
  {
    hide Pick;
    var at := PlacesOf(text, alphabet);
    fill := i => if 0 <= i < |at| then at[i] else 0;
    forall i | 0 <= i < |text|
      ensures Filled(|text|, alphabet, fill)[i] == text[i]
    {
      PickOf(alphabet, at[i]);
    }
  }

  lemma PickOf(alphabet: string, b: Byte)
    requires b < |alphabet|
    ensures Pick(alphabet, b) == alphabet[b]
  {
  }

  lemma {:induction false} PlacesOf(text: string, alphabet: string) returns (at: seq<Byte>)
    requires |alphabet| <= 256 && forall i :: 0 <= i < |text| ==> text[i] in alphabet
    ensures |at| == |text| && forall i :: 0 <= i < |at| ==> at[i] < |alphabet| && alphabet[at[i]] == text[i]
  {
    if text == "" {
      at := [];
    } else {
      var front := PlacesOf(text[..|text| - 1], alphabet);
      assert text[|text| - 1] in alphabet;
      var b: nat :| b < |alphabet| && alphabet[b] == text[|text| - 1];
      at := front + [b];
    }
  }

  predicate AllKnown(classes: seq<string>) {
    forall i :: 0 <= i < |classes| ==> Known(classes[i])
  }

  /** One byte of each required class, in order, over the front of the buffer. */
  function Placed(s: string, required: seq<string>, picks: nat -> Option<Byte>): (r: Option<string>)
    requires |required| <= |s| && AllKnown(required)
    ensures r.Some? ==> |r.value| == |s|
  {
    if required == [] then Some(s)
    else
      var k := |required| - 1;
      match (Placed(s, required[..k], picks), picks(k))
      case (Some(t), Some(b)) => Some(t[k := Pick(ClassAlphabet(required[k]), b)])
      case (Some(_), None) => None
      case (None, _) => None
  }

  function Exchange<T>(s: seq<T>, i: nat, j: nat): seq<T>
    requires i < |s| && j < |s|
  {
    s[i := s[j]][j := s[i]]
  }

  /** The exchanges from position i down to position one. */
  function Shuffled<T>(s: seq<T>, i: nat, mix: nat -> Byte): (r: seq<T>)
    requires i < |s|
    ensures |r| == |s|
    decreases i
  {
    if i == 0 then s else Shuffled(Exchange(s, i, mix(i) % (i + 1)), i - 1, mix)
  }

  function Swapped(k: nat, i: nat, j: nat): nat {
    if k == i then j else if k == j then i else k
  }

  /** Where the shuffle takes what was at position k. */
  function Lands(k: nat, i: nat, mix: nat -> Byte): nat
    decreases i
  {
    if i == 0 then k else Lands(Swapped(k, i, mix(i) % (i + 1)), i - 1, mix)
  }

  /** Where what ends up at position m was before. */
  function ComesFrom(m: nat, i: nat, mix: nat -> Byte): nat
    decreases i
  {
    if i == 0 then m else Swapped(ComesFrom(m, i - 1, mix), i, mix(i) % (i + 1))
  }

  /** The shuffle moves bytes about: it takes the byte at k to Lands(k), and no two to the same place. */
  lemma {:induction false} ShuffleMoves<T>(s: seq<T>, i: nat, mix: nat -> Byte, k: nat)
    requires i < |s| && k < |s|
    ensures Lands(k, i, mix) < |s| && Shuffled(s, i, mix)[Lands(k, i, mix)] == s[k]
    ensures ComesFrom(Lands(k, i, mix), i, mix) == k
    decreases i
  {
    if i > 0 {
      var j := mix(i) % (i + 1);
      ShuffleMoves(Exchange(s, i, j), i - 1, mix, Swapped(k, i, j));
    }
  }

  lemma {:induction false} ShuffleFills<T>(s: seq<T>, i: nat, mix: nat -> Byte, m: nat)
    requires i < |s| && m < |s|
    ensures ComesFrom(m, i, mix) < |s| && Lands(ComesFrom(m, i, mix), i, mix) == m
    decreases i
  {
    if i > 0 {
      ShuffleFills(Exchange(s, i, mix(i) % (i + 1)), i - 1, mix, m);
    }
  }

  /** An order of the first n positions, and the order that undoes it. */
  ghost predicate Inverse(to: seq<nat>, back: seq<nat>) {
    && |to| == |back|
    && (forall k :: 0 <= k < |to| ==> to[k] < |to| && back[to[k]] == k)
    && (forall k :: 0 <= k < |to| ==> back[k] < |to| && to[back[k]] == k)
  }

  lemma {:induction false} LandsAgree(k: nat, i: nat, mix: nat -> Byte, other: nat -> Byte)
    requires forall x :: 0 < x <= i ==> mix(x) == other(x)
    ensures Lands(k, i, mix) == Lands(k, i, other)
    decreases i
  {
    if i > 0 {
      LandsAgree(Swapped(k, i, mix(i) % (i + 1)), i - 1, mix, other);
    }
  }

  lemma {:induction false} LandsBeyond(k: nat, i: nat, mix: nat -> Byte)
    requires k > i
    ensures Lands(k, i, mix) == k
    decreases i
  {
    if i > 0 {
      LandsBeyond(k, i - 1, mix);
    }
  }

  /** What is left of an order, and of its undoing, once the last position is served. */
  function Shorter(to: seq<nat>, j: nat): (r: seq<nat>)
    requires 1 < |to| && j < |to|
    ensures |r| == |to| - 1
  {
    seq(|to| - 1, k requires 0 <= k < |to| - 1 => to[Swapped(k, |to| - 1, j)])
  }

  function ShorterBack(back: seq<nat>, j: nat): (r: seq<nat>)
    requires 1 < |back|
    ensures |r| == |back| - 1
  {
    seq(|back| - 1, k requires 0 <= k < |back| - 1 => Swapped(back[k], |back| - 1, j))
  }

  lemma ShorterInverse(to: seq<nat>, back: seq<nat>, j: nat)
    requires 1 < |to| && Inverse(to, back) && j == back[|to| - 1]
    ensures Inverse(Shorter(to, j), ShorterBack(back, j))
  {
    var i := |to| - 1;
    assert to[j] == i && back[i] == j;
    forall k: nat | k < i
      ensures Shorter(to, j)[k] < i && ShorterBack(back, j)[Shorter(to, j)[k]] == k
    {
      assert Swapped(k, i, j) != j;
      assert back[to[Swapped(k, i, j)]] == Swapped(k, i, j);
    }
    forall k: nat | k < i
      ensures ShorterBack(back, j)[k] < i && Shorter(to, j)[ShorterBack(back, j)[k]] == k
    {
      assert to[back[k]] == k;
    }
  }

  /** Some draw produces every order of a buffer, however long the rules let it be. */
  lemma {:induction false} EveryOrderCanCome(to: seq<nat>, back: seq<nat>) returns (mix: nat -> Byte)
    requires 0 < |to| <= 256 && Inverse(to, back)
    ensures forall k :: 0 <= k < |to| ==> Lands(k, |to| - 1, mix) == to[k]
    decreases |to|
  {
    var i := |to| - 1;
    if i == 0 {
      mix := _ => 0;
    } else {
      var j := back[i];
      ShorterInverse(to, back, j);
      var rest := EveryOrderCanCome(Shorter(to, j), ShorterBack(back, j));
      mix := x => if x == i then j else rest(x);
      forall k: nat | k < |to|
        ensures Lands(k, i, mix) == to[k]
      {
        FirstExchange(to, back, i - 1, k, mix, rest);
      }
    }
  }

  lemma FirstExchange(to: seq<nat>, back: seq<nat>, i: nat, k: nat, mix: nat -> Byte, rest: nat -> Byte)
    requires |to| == i + 2 && Inverse(to, back) && k < |to|
    requires mix(i + 1) == back[i + 1] && forall x :: 0 < x <= i ==> mix(x) == rest(x)
    requires forall k :: 0 <= k <= i ==> Lands(k, i, rest) == Shorter(to, back[i + 1])[k]
    ensures Lands(k, i + 1, mix) == to[k]
  {
    var j := back[i + 1];
    assert mix(i + 1) % (i + 2) == j;
    LandsAgree(Swapped(k, i + 1, j), i, mix, rest);
    if k == j {
      LandsBeyond(i + 1, i, rest);
    } else {
      assert Shorter(to, j)[Swapped(k, i + 1, j)] == to[k];
    }
  }

  /** A whole password: fill, place, shuffle. */
  function Generated(spec: Spec, random: Random): Option<string>
    requires spec.alphabet != "" && |spec.required| <= spec.n && 0 < spec.n && AllKnown(spec.required)
  {
    if random.fill.None? then None
    else
      match Placed(Filled(spec.n, spec.alphabet, random.fill.value), spec.required, random.picks)
      case None => None
      case Some(t) =>
        if random.mix.None? then None else Some(Shuffled(t, spec.n - 1, random.mix.value))
  }

  method FromAlphabet(n: int, alphabet: string, random: Random) returns (r: Result<array<char>, Error>)
    ensures n < 12 || n > 128 ==> r == Err(BadLength)
    ensures 12 <= n <= 128 && alphabet == "" ==> r == Err(EmptyAlphabet)
    ensures 12 <= n <= 128 && alphabet != "" ==>
              if random.fill.None? then r == Err(NoRandom)
              else r.Ok? && fresh(r.value) && r.value[..] == Filled(n, alphabet, random.fill.value)
  {
    if n < 12 || n > 128 {
      return Err(BadLength);
    }
    if alphabet == "" {
      return Err(EmptyAlphabet);
    }
    if random.fill.None? {
      return Err(NoRandom);
    }
    var out := new char[n];
    for i := 0 to n
      invariant out[..i] == Filled(n, alphabet, random.fill.value)[..i]
    {
      out[i] := alphabet[random.fill.value(i) % |alphabet|];
    }
    assert out[..n] == out[..];
    return Ok(out);
  }

  method PickByte(class_: string, draw: Option<Byte>) returns (r: Result<char, Error>)
    ensures !Known(class_) ==> r == Err(UnknownClass)
    ensures Known(class_) && draw.None? ==> r == Err(NoRandom)
    ensures Known(class_) && draw.Some? ==> r == Ok(Pick(ClassAlphabet(class_), draw.value))
  {
    hide ClassAlphabet;
    var letters := ClassAlphabet(class_);
    if letters == "" {
      return Err(UnknownClass);
    }
    if draw.None? {
      return Err(NoRandom);
    }
    return Ok(letters[draw.value % |letters|]);
  }

  method Shuffle(out: array<char>, mix: nat -> Byte)
    requires out.Length > 0
    modifies out
    ensures out[..] == Shuffled(old(out[..]), out.Length - 1, mix)
  {
    var i := out.Length - 1;
    while i > 0
      invariant 0 <= i < out.Length
      invariant Shuffled(out[..], i, mix) == Shuffled(old(out[..]), out.Length - 1, mix)
    {
      var j := mix(i) % (i + 1);
      ghost var was := out[..];
      out[i], out[j] := out[j], out[i];
      assert out[..] == Exchange(was, i, j);
      i := i - 1;
    }
  }

  // ---- what a password is like ----

  /** Every class in the list has a position of its own with a byte of that class. */
  ghost predicate Witnessed(pass: string, classes: seq<string>, at: seq<nat>) {
    && |at| == |classes| && Distinct(at)
    && forall k :: 0 <= k < |at| ==> at[k] < |pass| && pass[at[k]] in ClassAlphabet(classes[k])
  }

  ghost predicate HasAll(pass: string, classes: seq<string>) {
    exists at :: Witnessed(pass, classes, at)
  }

  ghost predicate MeetsRules(pass: string, spec: Spec) {
    && |pass| == spec.n
    && HasAll(pass, spec.required)
    && forall m :: 0 <= m < |pass| ==> pass[m] in Chars(spec.alphabet) + Letters(spec.required)
  }

  ghost predicate Sound(spec: Spec) {
    spec.alphabet != "" && |spec.required| <= spec.n && 0 < spec.n && AllKnown(spec.required)
  }

  /** All the reads a password takes succeed. */
  ghost predicate Supplied(random: Random, required: seq<string>) {
    && random.fill.Some? && random.mix.Some?
    && forall k :: 0 <= k < |required| ==> random.picks(k).Some?
  }

  lemma {:induction false} PlacedBytes(s: string, required: seq<string>, picks: nat -> Option<Byte>)
    requires |required| <= |s| && AllKnown(required)
    ensures Placed(s, required, picks).Some? <==> forall k :: 0 <= k < |required| ==> picks(k).Some?
    ensures Placed(s, required, picks).Some? ==>
              forall k :: 0 <= k < |s| ==>
                Placed(s, required, picks).value[k] ==
                if k < |required| then Pick(ClassAlphabet(required[k]), picks(k).value) else s[k]
  {
    hide ClassAlphabet;
    if required != [] {
      var n := |required| - 1;
      PlacedBytes(s, required[..n], picks);
      assert forall k :: 0 <= k < n ==> required[..n][k] == required[k];
    }
  }

  /** After the shuffle each required class still has its own position, repeats included. */
  lemma RequiredSurvive(t: string, i: nat, required: seq<string>, mix: nat -> Byte)
    requires i < |t| && |required| <= |t|
    requires forall k :: 0 <= k < |required| ==> t[k] in ClassAlphabet(required[k])
    ensures HasAll(Shuffled(t, i, mix), required)
  {
    hide ClassAlphabet, Shuffled, Lands, ComesFrom;
    var at: seq<nat> := seq(|required|, k requires 0 <= k < |required| => Lands(k, i, mix));
    forall k: nat | k < |required|
      ensures at[k] < |t| && Shuffled(t, i, mix)[at[k]] == t[k] && ComesFrom(at[k], i, mix) == k
    {
      ShuffleMoves(t, i, mix, k);
    }
    AreApart(at, i, mix);
    assert Witnessed(Shuffled(t, i, mix), required, at);
  }

  lemma AreApart(at: seq<nat>, i: nat, mix: nat -> Byte)
    requires forall k :: 0 <= k < |at| ==> ComesFrom(at[k], i, mix) == k
    ensures Distinct(at)
  {
    hide ComesFrom;
    forall k: nat, m: nat | k < m < |at|
      ensures at[k] != at[m]
    {
      assert ComesFrom(at[k], i, mix) == k && ComesFrom(at[m], i, mix) == m;
    }
  }

  lemma LetterIn(classes: seq<string>, k: nat, c: char)
    requires k < |classes| && c in ClassAlphabet(classes[k])
    ensures c in Letters(classes)
  {
    hide ClassAlphabet;
    var j :| 0 <= j < |ClassAlphabet(classes[k])| && ClassAlphabet(classes[k])[j] == c;
  }

  /** What was in the buffer before the shuffle. */
  lemma BufferBytes(spec: Spec, s: string, picks: nat -> Option<Byte>)
    requires Sound(spec) && |s| == spec.n && Placed(s, spec.required, picks).Some?
    requires forall k :: 0 <= k < |s| ==> s[k] in spec.alphabet
    ensures var t := Placed(s, spec.required, picks).value;
            && (forall k :: 0 <= k < |spec.required| ==> t[k] in ClassAlphabet(spec.required[k]))
            && forall k :: 0 <= k < |t| ==> t[k] in Chars(spec.alphabet) + Letters(spec.required)
  {
    hide ClassAlphabet, Letters, Placed;
    PlacedBytes(s, spec.required, picks);
    var t := Placed(s, spec.required, picks).value;
    forall k: nat | k < |t|
      ensures t[k] in Chars(spec.alphabet) + Letters(spec.required)
    {
      if k < |spec.required| {
        LetterIn(spec.required, k, t[k]);
      }
    }
  }

  lemma ShuffleKeepsTo(t: string, i: nat, mix: nat -> Byte, letters: set<char>)
    requires i < |t| && forall k :: 0 <= k < |t| ==> t[k] in letters
    ensures forall m :: 0 <= m < |t| ==> Shuffled(t, i, mix)[m] in letters
  {
    hide Shuffled, Lands, ComesFrom;
    forall m: nat | m < |t|
      ensures Shuffled(t, i, mix)[m] in letters
    {
      ShuffleFills(t, i, mix, m);
      ShuffleMoves(t, i, mix, ComesFrom(m, i, mix));
    }
  }

  lemma FilledFrom(n: nat, alphabet: string, fill: nat -> Byte)
    requires alphabet != ""
    ensures forall k :: 0 <= k < n ==> Filled(n, alphabet, fill)[k] in alphabet
  {
    forall k: nat | k < n
      ensures Filled(n, alphabet, fill)[k] in alphabet
    {
      assert Filled(n, alphabet, fill)[k] == alphabet[fill(k) % |alphabet|];
    }
  }

  /** A password has the length asked for and its required classes, and stays within what the rules name. */
  lemma GeneratedMeetsRules(spec: Spec, random: Random)
    requires Sound(spec)
    ensures Generated(spec, random).Some? <==> Supplied(random, spec.required)
    ensures Generated(spec, random).Some? ==> MeetsRules(Generated(spec, random).value, spec)
  {
    hide ClassAlphabet, Shuffled, Letters, Placed, Chars, Witnessed, Filled, Known;
    if random.fill.Some? {
      var s := Filled(spec.n, spec.alphabet, random.fill.value);
      assert |s| == spec.n;
      PlacedBytes(s, spec.required, random.picks);
      if Placed(s, spec.required, random.picks).Some? && random.mix.Some? {
        FilledFrom(spec.n, spec.alphabet, random.fill.value);
        BufferBytes(spec, s, random.picks);
        var t := Placed(s, spec.required, random.picks).value;
        RequiredSurvive(t, spec.n - 1, spec.required, random.mix.value);
        ShuffleKeepsTo(t, spec.n - 1, random.mix.value, Chars(spec.alphabet) + Letters(spec.required));
      }
    }
  }

  /**
   The bytes picked for required classes come from the whole class. So passwords keep to the alphabet, whatever
   is drawn, exactly when the alphabet has all the letters of every required class.
   */
  lemma KeepsToAlphabetIff(spec: Spec)
    requires Sound(spec)
    ensures (forall random, m ::
               Generated(spec, random).Some? && 0 <= m < |Generated(spec, random).value| ==>
                 Generated(spec, random).value[m] in Chars(spec.alphabet))
            <==> Letters(spec.required) <= Chars(spec.alphabet)
  {
    if Letters(spec.required) <= Chars(spec.alphabet) {
      forall random, m | Generated(spec, random).Some? && 0 <= m < |Generated(spec, random).value|
        ensures Generated(spec, random).value[m] in Chars(spec.alphabet)
      {
        GeneratedMeetsRules(spec, random);
      }
    } else {
      var c :| c in Letters(spec.required) && c !in Chars(spec.alphabet);
      var k: nat, j: nat :| k < |spec.required| && j < |ClassAlphabet(spec.required[k])| &&
        ClassAlphabet(spec.required[k])[j] == c;
      ClassesAreShort(spec.required[k]);
      var zero: nat -> Byte := _ => 0;
      var random := Random(Some(zero), _ => Some(j), Some(zero));
      Strays(spec, k, j, random);
      assert Generated(spec, random).value[Lands(k, spec.n - 1, zero)] == c;
    }
  }

  lemma ClassesAreShort(class_: string)
    ensures |ClassAlphabet(class_)| < 256
  {
    assert |PRINTABLE| == |UPPERS| + |LOWERS| + |DIGITS| + |SPECIALS| + 9;
  }

  /** When every pick draws j, the j-th letter of each required class is in the password. */
  lemma Strays(spec: Spec, k: nat, j: Byte, random: Random)
    requires Sound(spec) && k < |spec.required| && j < |ClassAlphabet(spec.required[k])|
    requires random.fill.Some? && random.mix.Some? && forall i :: random.picks(i) == Some(j)
    ensures Generated(spec, random).Some?
    ensures var m := Lands(k, spec.n - 1, random.mix.value);
            m < |Generated(spec, random).value| &&
            Generated(spec, random).value[m] == ClassAlphabet(spec.required[k])[j]
  {
    hide ClassAlphabet, Shuffled, Placed, Filled, Lands;
    var s := Filled(spec.n, spec.alphabet, random.fill.value);
    PlacedBytes(s, spec.required, random.picks);
    var t := Placed(s, spec.required, random.picks).value;
    ShuffleMoves(t, spec.n - 1, random.mix.value, k);
    assert j % |ClassAlphabet(spec.required[k])| == j;
  }

  /** The rules are in order and the random source delivers. */
  ghost predicate Makes(rules: string, random: Random) {
    var w := Wished(Parts(rules));
    w.Ok? && Fault(w.value).None? && Supplied(random, w.value.required)
  }

  /**
   Rules are obeyed: what is wrong with them is reported, and a password made from them is as long as they say,
   has every required class, and has no byte that is neither permitted nor of a required class.
   */
  method FromRules(rules: string, random: Random) returns (r: Result<string, Error>)
    ensures Wished(Parts(rules)).Err? ==> r == Err(BadNumber)
    ensures Wished(Parts(rules)).Ok? ==>
              var w := Wished(Parts(rules)).value;
              match Fault(w)
              case Some(e) => r == Err(e)
              case None =>
                && (r.Ok? <==> Supplied(random, w.required))
                && (r.Err? ==> r.error == NoRandom)
                && (r.Ok? ==>
                      && |r.value| == Length(w) && 12 <= |r.value| <= 128
                      && HasAll(r.value, w.required)
                      && forall m :: 0 <= m < |r.value| ==> r.value[m] in Permitted(w) + Letters(w.required))
  {
    hide ClassAlphabet, Parts, Wished, Letters, Distinct, ClassFault;
    var parsed := ParseRules(rules);
    if parsed.Err? {
      return Err(parsed.error);
    }
    var spec := parsed.value;
    ghost var w := Wished(Parts(rules)).value;
    NoFaultMeansKnown(w, 0);
    GeneratedMeetsRules(spec, random);
    var filled := FromAlphabet(spec.n, spec.alphabet, random);
    if filled.Err? {
      return Err(filled.error);
    }
    var out := filled.value;
    ghost var s := out[..];
    for i := 0 to |spec.required|
      invariant AllKnown(spec.required[..i])
      invariant Placed(s, spec.required[..i], random.picks) == Some(out[..])
    {
      assert spec.required[..i + 1][..i] == spec.required[..i];
      var pick := PickByte(spec.required[i], random.picks(i));
      if pick.Err? {
        return Err(pick.error);
      }
      out[i] := pick.value;
    }
    assert spec.required[..|spec.required|] == spec.required;
    if random.mix.None? {
      return Err(NoRandom);
    }
    Shuffle(out, random.mix.value);
    return Ok(out[..]);
  }

  lemma {:induction false} NoFaultMeansKnown(w: Wish, k: nat)
    requires k <= |w.required| && ClassFault(w, k).None?
    ensures forall i :: k <= i < |w.required| ==> Known(w.required[i])
    decreases |w.required| - k
  {
    hide ClassAlphabet;
    if k < |w.required| {
      NoFaultMeansKnown(w, k + 1);
    }
  }
}
