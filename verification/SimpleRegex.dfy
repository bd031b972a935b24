/** The simple regular expressions of the vendored googletest
    (test/googletest-release-1.7.0/src/gtest-port.cc): the validator and the
    backtracking matcher, against a grammar and what it denotes. */
module SimpleRegex {

  datatype Option<+T> = None | Some(value: T)

  /** A C string: everything before the terminating NUL. */
  type CString = s: string | Clean(s)

  predicate Clean(s: string) {
    forall i :: 0 <= i < |s| ==> s[i] != '\0'
  }

  /** Reading a C string, its terminator included. */
  function At(s: CString, i: nat): char
    requires i <= |s|
  {
    if i < |s| then s[i] else '\0'
  }

  /** The part of a C string from a pointer into it. */
  function From(s: CString, i: nat): CString
    requires i <= |s|
  {
    s[i..]
  }

  const SIZE_MAX: nat := 0xffff_ffff_ffff_ffff

  function IsInSet(ch: char, set_: string): bool {
    ch != '\0' && ch in set_
  }

  function IsAsciiDigit(ch: char): bool {
    '0' <= ch <= '9'
  }

  function IsAsciiPunct(ch: char): bool {
    IsInSet(ch, "^-!\"#$%&'()*+,./:;<=>?@[\\]_`{|}~")
  }

  function IsRepeat(ch: char): bool {
    IsInSet(ch, "?*+")
  }

  function IsAsciiWhiteSpace(ch: char): bool {
    IsInSet(ch, [' ', 12 as char, '\n', '\r', '\t', 11 as char])
  }

  function IsAsciiWordChar(ch: char): bool {
    'a' <= ch <= 'z' || 'A' <= ch <= 'Z' || '0' <= ch <= '9' || ch == '_'
  }

  function IsValidEscape(c: char): bool {
    IsAsciiPunct(c) || IsInSet(c, "dDfnrsStvwW")
  }

  function AtomMatchesChar(escaped: bool, pattern: char, ch: char): bool {
    if escaped then
      match pattern
      case 'd' => IsAsciiDigit(ch)
      case 'D' => !IsAsciiDigit(ch)
      case 'f' => ch == 12 as char
      case 'n' => ch == '\n'
      case 'r' => ch == '\r'
      case 's' => IsAsciiWhiteSpace(ch)
      case 'S' => !IsAsciiWhiteSpace(ch)
      case 't' => ch == '\t'
      case 'v' => ch == 11 as char
      case 'w' => IsAsciiWordChar(ch)
      case 'W' => !IsAsciiWordChar(ch)
      case _ => IsAsciiPunct(pattern) && pattern == ch
    else
      (pattern == '.' && ch != '\n') || pattern == ch
  }

  // -------------------------------------------------- the grammar and its meaning

  datatype Count = Once | Optional | Any | Several

  /** An atom, a character or an escape sequence, and how often it may occur. */
  datatype Item = Item(escaped: bool, c: char, count: Count)

  /** An expression with its two anchors. */
  datatype Regex = Regex(begins: bool, items: seq<Item>, ends: bool)

  ghost predicate ItemOk(t: Item) {
    if t.escaped then IsValidEscape(t.c)
    else t.c != '\0' && t.c != '\\' && t.c != '^' && t.c != '$' && !IsInSet(t.c, "()[]{}|") && !IsRepeat(t.c)
  }

  ghost predicate ItemsOk(items: seq<Item>) {
    forall i :: 0 <= i < |items| ==> ItemOk(items[i])
  }

  function Mark(count: Count): string {
    match count
    case Once => ""
    case Optional => "?"
    case Any => "*"
    case Several => "+"
  }

  function ItemText(t: Item): (r: string)
    ensures |r| > 0
  {
    (if t.escaped then "\\" else "") + [t.c] + Mark(t.count)
  }

  /** The text of the items and of the end anchor. */
  function TailText(items: seq<Item>, ends: bool): string {
    if items == [] then (if ends then "$" else "") else ItemText(items[0]) + TailText(items[1..], ends)
  }

  function Text(re: Regex): string {
    (if re.begins then "^" else "") + TailText(re.items, re.ends)
  }

  /** The words an item stands for. */
  ghost predicate InItem(t: Item, w: string) {
    && (match t.count
        case Once => |w| == 1
        case Optional => |w| <= 1
        case Any => true
        case Several => |w| >= 1)
    && forall i :: 0 <= i < |w| ==> AtomMatchesChar(t.escaped, t.c, w[i])
  }

  /** The words a sequence of items stands for. */
  ghost predicate InItems(items: seq<Item>, w: string) {
    if items == [] then w == ""
    else exists k :: 0 <= k <= |w| && InItem(items[0], w[..k]) && InItems(items[1..], w[k..])
  }

  /** Some substring of `s`, held to the ends where there are anchors, is in the language. */
  ghost predicate Matches(re: Regex, s: string) {
    exists i, j :: 0 <= i <= j <= |s| && (re.begins ==> i == 0) && (re.ends ==> j == |s|) && InItems(re.items, s[i..j])
  }

  ghost predicate AtHead(items: seq<Item>, ends: bool, s: string) {
    exists j :: 0 <= j <= |s| && (ends ==> j == |s|) && InItems(items, s[..j])
  }

  // ----------------------------------------------------------------- validation

  /** The rest of a text passes, given whether it is the whole text and whether what
      comes before can be repeated. */
  function Passes(r: CString, whole: bool, repeatable: bool): bool {
    if r == "" then true
    else if r[0] == '\\' then |r| > 1 && IsValidEscape(r[1]) && Passes(r[2..], false, true)
    else
      && (r[0] == '^' ==> whole)
      && (r[0] == '$' ==> |r| == 1)
      && !IsInSet(r[0], "()[]{}|")
      && (IsRepeat(r[0]) ==> repeatable)
      && Passes(r[1..], false, !IsInSet(r[0], "^$?*+"))
  }

  function Counted(c: char): (n: Count)
    ensures !IsRepeat(c) <==> n == Once
    ensures IsRepeat(c) ==> Mark(n) == [c]
  {
    if c == '?' then Optional else if c == '*' then Any else if c == '+' then Several else Once
  }

  /** Where the atom at the head of a text has its character. */
  function AtomAt(r: CString): nat {
    if r != "" && r[0] == '\\' then 1 else 0
  }

  function HeadItem(r: CString): Item
    requires AtomAt(r) < |r|
  {
    Item(r[0] == '\\', r[AtomAt(r)], Counted(At(r, AtomAt(r) + 1)))
  }

  function HeadLength(r: CString): (n: nat)
    requires AtomAt(r) < |r|
    ensures 0 < n <= |r|
  {
    if Counted(At(r, AtomAt(r) + 1)) == Once then AtomAt(r) + 1 else AtomAt(r) + 2
  }

  /** The items of a text, and whether it has an end anchor. */
  function ParseTail(r: CString): (seq<Item>, bool)
    decreases |r|
  {
    if |r| <= AtomAt(r) then ([], false)
    else if r[0] == '$' then ([], true)
    else
      var (items, ends) := ParseTail(r[HeadLength(r)..]);
      ([HeadItem(r)] + items, ends)
  }

  function Parse(r: CString): Regex {
    var begins := r != "" && r[0] == '^';
    var (items, ends) := ParseTail(if begins then r[1..] else r);
    Regex(begins, items, ends)
  }

  /** What follows an atom, an optional repetition sign dropped. */
  lemma PassesAfter(r: CString)
    requires r != ""
    ensures Passes(r, false, true) <==> if IsRepeat(r[0]) then Passes(r[1..], false, false) else Passes(r, false, false)
  {
  }

  lemma Marks(c: char)
    ensures IsInSet(c, "^$?*+") <==> c == '^' || c == '$' || IsRepeat(c)
    ensures IsRepeat(c) <==> c == '?' || c == '*' || c == '+'
  {
  }

  lemma PassesAtom(r: CString)
    requires Passes(r, false, false) && r != "" && r[0] != '$'
    ensures AtomAt(r) < |r| && ItemOk(HeadItem(r)) && Passes(r[AtomAt(r) + 1..], false, true)
  {
    hide IsInSet, IsValidEscape, IsRepeat, Counted;
    Marks(r[0]);
  }

  lemma HeadText(r: CString)
    requires AtomAt(r) < |r|
    ensures ItemText(HeadItem(r)) == r[..HeadLength(r)]
  {
    hide Counted, IsRepeat;
    if Counted(At(r, AtomAt(r) + 1)) != Once {
      assert IsRepeat(At(r, AtomAt(r) + 1));
      Marks(At(r, AtomAt(r) + 1));
    }
  }

  lemma PassesHead(r: CString)
    requires Passes(r, false, false) && r != "" && r[0] != '$'
    ensures AtomAt(r) < |r| && ItemOk(HeadItem(r)) && Passes(r[HeadLength(r)..], false, false)
  {
    hide IsInSet, Passes, ItemOk, HeadItem, AtomAt;
    PassesAtom(r);
    var n := AtomAt(r) + 1;
    if n < |r| {
      PassesAfter(r[n..]);
      assert r[n..][1..] == r[n + 1..];
    } else {
      Marks('\0');
      assert r[n..] == "" && Passes("", false, false) by { PassesEmpty(); }
    }
  }

  lemma PassesEmpty()
    ensures Passes("", false, false)
  {
  }

  /** Whatever passes is the text of its parse, which obeys the grammar. */
  lemma {:induction false} PassesTail(r: CString)
    requires Passes(r, false, false)
    ensures var (items, ends) := ParseTail(r); ItemsOk(items) && TailText(items, ends) == r
    decreases |r|
  {
    hide Passes, HeadItem, HeadLength, ItemOk, ItemText;
    if r != "" && r[0] != '$' {
      PassesHead(r);
      HeadText(r);
      var n := HeadLength(r);
      PassesTail(r[n..]);
      assert r == r[..n] + r[n..];
    } else if r != "" {
      EndPasses(r);
    }
  }

  lemma EndPasses(r: CString)
    requires Passes(r, false, false) && r != "" && r[0] == '$'
    ensures r == "$"
  {
  }

  lemma ItemClean(t: Item)
    requires ItemOk(t)
    ensures Clean(ItemText(t))
  {
  }

  lemma {:induction false} TextClean(items: seq<Item>, ends: bool)
    requires ItemsOk(items)
    ensures Clean(TailText(items, ends))
  {
    hide ItemText, ItemOk;
    if items != [] {
      ItemClean(items[0]);
      TextClean(items[1..], ends);
    }
  }

  /** An item in front of a text that passes: it passes, and the item is read back. */
  lemma ItemPasses(t: Item, r: CString)
    requires ItemOk(t) && Passes(r, false, false) && Clean(ItemText(t) + r)
    ensures Passes(ItemText(t) + r, false, false)
  {
    hide IsInSet, IsValidEscape, Passes;
    var s := ItemText(t) + r;
    var n := AtomAt(s) + 1;
    Marks(t.c);
    Marks('\\');
    assert Passes(s[n..], false, true) by {
      if t.count == Once {
        assert s[n..] == r;
        if r != "" { PassesAfter(r); NoRepeat(r); } else { PassesNothing(); }
      } else {
        PassesAfter(s[n..]);
        assert s[n..][1..] == r;
        Marks(s[n]);
      }
    }
    PassesBack(s);
  }

  lemma PassesNothing()
    ensures Passes("", false, true) && Passes("", false, false)
  {
  }

  lemma NoRepeat(r: CString)
    requires Passes(r, false, false) && r != ""
    ensures !IsRepeat(r[0])
  {
    Marks(r[0]);
  }

  lemma PassesBack(r: CString)
    requires AtomAt(r) < |r| && ItemOk(HeadItem(r)) && Passes(r[AtomAt(r) + 1..], false, true)
    ensures Passes(r, false, false)
  {
    hide IsInSet, IsValidEscape, IsRepeat, Counted;
    Marks(r[0]);
  }

  lemma ItemReadBack(t: Item, r: CString)
    requires ItemOk(t) && (r != "" ==> !IsRepeat(r[0])) && Clean(ItemText(t) + r)
    ensures AtomAt(ItemText(t) + r) < |ItemText(t) + r| && HeadItem(ItemText(t) + r) == t
    ensures HeadLength(ItemText(t) + r) == |ItemText(t)|
    ensures (ItemText(t) + r)[0] != '$' && (ItemText(t) + r)[0] != '^'
  {
    hide IsInSet, IsValidEscape;
    var s := ItemText(t) + r;
    Marks(At(s, AtomAt(s) + 1));
  }

  /** Every text of the grammar passes and is parsed back. */
  lemma {:induction false} TextPasses(items: seq<Item>, ends: bool)
    requires ItemsOk(items)
    ensures Clean(TailText(items, ends)) && Passes(TailText(items, ends), false, false)
    ensures ParseTail(TailText(items, ends)) == (items, ends)
    ensures items != [] ==> TailText(items, ends)[0] != '^'
  {
    hide Passes, ItemOk, ItemText, HeadItem, HeadLength, AtomAt;
    TextClean(items, ends);
    if items == [] {
      EndOfText(ends);
    } else {
      var t, r := items[0], TailText(items[1..], ends);
      TextPasses(items[1..], ends);
      ItemPasses(t, r);
      if r != "" { NoRepeat(r); }
      ItemReadBack(t, r);
      assert (ItemText(t) + r)[|ItemText(t)|..] == r;
      assert [t] + items[1..] == items;
    }
  }

  lemma EndOfText(ends: bool)
    ensures Passes(TailText([], ends), false, false) && ParseTail(TailText([], ends)) == ([], ends)
  {
  }

  /** The validator's language: exactly the texts of the grammar, each of one expression. */
  lemma PassesMeans(r: CString)
    ensures Passes(r, true, false) <==> exists re: Regex :: ItemsOk(re.items) && Text(re) == r
    ensures Passes(r, true, false) ==> ItemsOk(Parse(r).items) && Text(Parse(r)) == r
    ensures forall re: Regex :: ItemsOk(re.items) && Text(re) == r ==> re == Parse(r)
  {
    hide Passes, Parse, Text, ItemsOk;
    if Passes(r, true, false) {
      PassesText(r);
    }
    forall re: Regex | ItemsOk(re.items) && Text(re) == r ensures re == Parse(r) && Passes(r, true, false) {
      TextParses(re, r);
    }
  }

  lemma PassesText(r: CString)
    requires Passes(r, true, false)
    ensures ItemsOk(Parse(r).items) && Text(Parse(r)) == r
  {
    hide Passes, ParseTail, TailText, ItemsOk;
    var tail := if r != "" && r[0] == '^' then r[1..] else r;
    PassesBegin(r);
    PassesTail(tail);
    assert r != "" && r[0] == '^' ==> r == "^" + tail;
  }

  lemma TextParses(re: Regex, r: CString)
    requires ItemsOk(re.items) && Text(re) == r
    ensures Parse(r) == re && Passes(r, true, false)
  {
    hide Passes, ParseTail, TailText, ItemsOk;
    TextPasses(re.items, re.ends);
    TailBegins(re);
    PassesBegin(r);
    assert !re.begins ==> r == TailText(re.items, re.ends);
  }

  lemma PassesBegin(r: CString)
    ensures Passes(r, true, false) == Passes(if r != "" && r[0] == '^' then r[1..] else r, false, false)
  {
    Marks('^');
  }

  lemma TailBegins(re: Regex)
    requires ItemsOk(re.items)
    ensures TailText(re.items, re.ends) != "" ==> TailText(re.items, re.ends)[0] != '^'
    ensures re.begins <==> Text(re) != "" && Text(re)[0] == '^'
    ensures re.begins ==> Text(re)[1..] == TailText(re.items, re.ends)
  {
    TextPasses(re.items, re.ends);
  }

  /** Nothing but a regex that passes is accepted. A null regex is not valid. */
  method ValidateRegex(regex: Option<CString>) returns (isValid: bool)
    ensures isValid <==> regex.Some? && Passes(regex.value, true, false)
  {
    if regex == None {
      return false;
    }
    var r := regex.value;
    isValid := true;
    var prevRepeatable := false;
    var i := 0;
    while At(r, i) != '\0'
      invariant i <= |r|
      invariant Passes(r, true, false) <==> isValid && Passes(r[i..], i == 0, prevRepeatable)
      decreases |r| - i
    {
      hide IsInSet, IsValidEscape, IsRepeat;
      ghost var rest := r[i..];
      if At(r, i) == '\\' {
        i := i + 1;
        if At(r, i) == '\0' {
          return false;
        }
        if !IsValidEscape(At(r, i)) {
          isValid := false;
        }
        prevRepeatable := true;
        assert rest[2..] == r[i + 1..];
      } else {
        var ch := At(r, i);
        if ch == '^' && i > 0 {
          isValid := false;
        } else if ch == '$' && At(r, i + 1) != '\0' {
          isValid := false;
        } else if IsInSet(ch, "()[]{}|") {
          isValid := false;
        } else if IsRepeat(ch) && !prevRepeatable {
          isValid := false;
        }
        prevRepeatable := !IsInSet(ch, "^$?*+");
        assert rest[1..] == r[i + 1..];
      }
      i := i + 1;
    }
  }

  // ------------------------------------------------------------------- matching

  /** `regex`, the rest of an expression, matches a prefix of `s`. */
  ghost predicate Heads(regex: CString, s: string) {
    AtHead(ParseTail(regex).0, ParseTail(regex).1, s)
  }

  lemma HeadsNothing(regex: CString, s: string)
    requires regex == "" || regex == "$"
    ensures Heads(regex, s) <==> (regex == "$" ==> s == "")
  {
    assert ParseTail(regex) == ([], regex == "$");
    if regex == "$" ==> s == "" {
      assert InItems([], s[..0]);
    }
  }

  /** A prefix match splits where its first item ends. */
  lemma HeadsSplit(items: seq<Item>, ends: bool, s: string)
    requires items != []
    ensures AtHead(items, ends, s) <==> exists k :: 0 <= k <= |s| && InItem(items[0], s[..k]) && AtHead(items[1..], ends, s[k..])
  {
    hide InItem;
    if AtHead(items, ends, s) {
      var j :| 0 <= j <= |s| && (ends ==> j == |s|) && InItems(items, s[..j]);
      var w := s[..j];
      var k :| 0 <= k <= |w| && InItem(items[0], w[..k]) && InItems(items[1..], w[k..]);
      assert w[..k] == s[..k] && w[k..] == s[k..][..j - k];
      assert AtHead(items[1..], ends, s[k..]);
    }
    if k :| 0 <= k <= |s| && InItem(items[0], s[..k]) && AtHead(items[1..], ends, s[k..]) {
      var j :| 0 <= j <= |s[k..]| && (ends ==> j == |s[k..]|) && InItems(items[1..], s[k..][..j]);
      var w := s[..k + j];
      assert w[..k] == s[..k] && w[k..] == s[k..][..j];
      assert InItems(items, w);
    }
  }

  /** The same on texts: the head item takes some characters, the rest matches after them. */
  lemma HeadsFrom(regex: CString, s: string)
    requires Passes(regex, false, false) && regex != "" && regex[0] != '$'
    ensures AtomAt(regex) < |regex|
    ensures Heads(regex, s) <==> exists k :: 0 <= k <= |s| && InItem(HeadItem(regex), s[..k]) && Heads(regex[HeadLength(regex)..], s[k..])
  {
    hide Passes, HeadItem, HeadLength, InItem, AtHead, AtomAt, ItemOk;
    PassesHead(regex);
    var (items, ends) := ParseTail(regex);
    assert ParseTail(regex[HeadLength(regex)..]) == (items[1..], ends) && items[0] == HeadItem(regex);
    HeadsSplit(items, ends, s);
  }

  lemma NotTaken(t: Item, s: string, i: nat, k: nat)
    requires i < k <= |s| && !AtomMatchesChar(t.escaped, t.c, s[i])
    ensures !InItem(t, s[..k])
  {
    hide AtomMatchesChar;
    assert s[..k][i] == s[i];
  }

  method MatchRepetitionAndRegexAtHead(escaped: bool, c: char, repeat: char, regex: CString, str: CString)
    returns (found: bool)
    requires IsRepeat(repeat) && Passes(regex, false, false) && |str| < SIZE_MAX
    ensures found <==> exists k :: 0 <= k <= |str| && InItem(Item(escaped, c, Counted(repeat)), str[..k]) && Heads(regex, str[k..])
    decreases |regex|, 2
  {
    hide AtomMatchesChar, Passes, Heads, IsInSet;
    Marks(repeat);
    var minCount := if repeat == '+' then 1 else 0;
    var maxCount := if repeat == '?' then 1 else SIZE_MAX - 1;
    ghost var t := Item(escaped, c, Counted(repeat));
    var i := 0;
    while i <= maxCount
      invariant i <= |str| && i <= maxCount + 1
      invariant forall n :: 0 <= n < i ==> AtomMatchesChar(escaped, c, str[n])
      invariant forall k :: minCount <= k < i ==> !Heads(regex, str[k..])
    {
      if i >= minCount {
        var tail := MatchRegexAtHead(regex, From(str, i));
        if tail {
          assert InItem(t, str[..i]);
          return true;
        }
      }
      if At(str, i) == '\0' || !AtomMatchesChar(escaped, c, At(str, i)) {
        forall k | i < k <= |str| ensures !InItem(t, str[..k]) { NotTaken(t, str, i, k); }
        return false;
      }
      i := i + 1;
    }
    return false;
  }

  method MatchRegexAtHead(regex: CString, str: CString) returns (found: bool)
    requires Passes(regex, false, false) && |str| < SIZE_MAX
    ensures found <==> Heads(regex, str)
    decreases |regex|, 1
  {
    hide AtomMatchesChar, Passes, Heads, IsInSet, ItemOk;
    if At(regex, 0) == '\0' {
      HeadsNothing(regex, str);
      return true;
    }
    if At(regex, 0) == '$' {
      EndPasses(regex);
      HeadsNothing(regex, str);
      return At(str, 0) == '\0';
    }
    HeadsFrom(regex, str);
    PassesHead(regex);
    var r: CString := regex;
    var escaped := At(r, 0) == '\\';
    if escaped {
      r := From(r, 1);
    }
    if IsRepeat(At(r, 1)) {
      assert r[2..] == regex[HeadLength(regex)..];
      found := MatchRepetitionAndRegexAtHead(escaped, At(r, 0), At(r, 1), From(r, 2), str);
    } else if At(str, 0) != '\0' && AtomMatchesChar(escaped, At(r, 0), At(str, 0)) {
      assert r[1..] == regex[HeadLength(regex)..];
      found := MatchRegexAtHead(From(r, 1), From(str, 1));
      assert InItem(HeadItem(regex), str[..1]);
    } else {
      found := false;
    }
  }

  method MatchRegexAnywhere(regex: Option<CString>, str: Option<CString>) returns (found: bool)
    requires regex.Some? ==> Passes(regex.value, true, false)
    requires str.Some? ==> |str.value| < SIZE_MAX
    ensures found <==> regex.Some? && str.Some? && Matches(Parse(regex.value), str.value)
  {
    hide Passes, Heads, InItems;
    if regex == None || str == None {
      return false;
    }
    var r, s := regex.value, str.value;
    PassesBegin(r);
    MatchesFrom(r, s);
    if At(r, 0) == '^' {
      found := MatchRegexAtHead(From(r, 1), s);
      return;
    }
    var i := 0;
    while true
      invariant i <= |s|
      invariant forall k :: 0 <= k < i ==> !Heads(r, s[k..])
      decreases |s| - i
    {
      found := MatchRegexAtHead(r, From(s, i));
      if found {
        return;
      }
      i := i + 1;
      if At(s, i - 1) == '\0' {
        return false;
      }
    }
  }

  /** A match anywhere is a prefix match from some point, from the start if there is a `^`. */
  lemma MatchesFrom(r: CString, s: string)
    ensures r != "" && r[0] == '^' ==> (Matches(Parse(r), s) <==> Heads(r[1..], s))
    ensures !(r != "" && r[0] == '^') ==> (Matches(Parse(r), s) <==> exists k :: 0 <= k <= |s| && Heads(r, s[k..]))
  {
    hide InItems, ParseTail;
    var re := Parse(r);
    if Matches(re, s) {
      var i, j :| 0 <= i <= j <= |s| && (re.begins ==> i == 0) && (re.ends ==> j == |s|) && InItems(re.items, s[i..j]);
      assert s[i..][..j - i] == s[i..j];
      assert AtHead(re.items, re.ends, s[i..]);
      assert s[0..] == s;
    }
    forall k | 0 <= k <= |s| && (re.begins ==> k == 0) && AtHead(re.items, re.ends, s[k..]) ensures Matches(re, s) {
      var j :| 0 <= j <= |s[k..]| && (re.ends ==> j == |s[k..]|) && InItems(re.items, s[k..][..j]);
      assert s[k..][..j] == s[k..k + j];
    }
    assert s[0..] == s;
  }

  // ------------------------------------------------------------------ the class

  /** The text that a full match uses. */
  function FullPattern(r: string): string {
    (if r != "" && r[0] == '^' then "" else "^") + r + (if r == "" || r[|r| - 1] != '$' then "$" else "")
  }

  class RE {
    var pattern: Option<CString>
    var fullPattern: Option<CString>
    var isValid: bool

    ghost predicate Valid()
      reads this
    {
      && (isValid <==> pattern.Some? && Passes(pattern.value, true, false))
      && (isValid ==> fullPattern.Some? && fullPattern.value == FullPattern(pattern.value) && Passes(fullPattern.value, true, false))
    }

    constructor (regex: Option<CString>)
      ensures Valid() && pattern == regex
    {
      hide Passes, Parse, EndsInEscapedDollar;
      pattern, fullPattern := None, None;
      if regex != None {
        pattern := Some(regex.value);
      }
      var valid := ValidateRegex(regex);
      isValid := valid;
      if valid {
        var r := regex.value;
        var buffer: string := "";
        if At(r, 0) != '^' {
          buffer := buffer + "^";
        }
        buffer := buffer + r;
        if |r| == 0 || r[|r| - 1] != '$' {
          buffer := buffer + "$";
        }
        assert buffer == FullPattern(r);
        FullPasses(r);
        fullPattern := Some(buffer);
      }
    }

    method FullMatch(str: Option<CString>) returns (m: bool)
      requires Valid() && (str.Some? ==> |str.value| < SIZE_MAX)
      ensures m <==> isValid && str.Some? && FullMatches(Parse(pattern.value), str.value)
    {
      hide Passes, Matches, FullMatches, Parse, FullPattern;
      m := false;
      if isValid {
        m := MatchRegexAnywhere(fullPattern, str);
        if str != None { FullMeans(pattern.value, str.value); }
      }
    }

    method PartialMatch(str: Option<CString>) returns (m: bool)
      requires Valid() && (str.Some? ==> |str.value| < SIZE_MAX)
      ensures m <==> isValid && str.Some? && Matches(Parse(pattern.value), str.value)
    {
      hide Passes, Matches, Parse;
      m := false;
      if isValid {
        m := MatchRegexAnywhere(pattern, str);
      }
    }
  }

  /** The last thing in the text of an expression is an escaped dollar, not the anchor. */
  predicate EndsInEscapedDollar(re: Regex) {
    !re.ends && re.items != [] && re.items[|re.items| - 1] == Item(true, '$', Once)
  }

  /** What a full match finds: the whole string, or only a prefix of it when the last
      thing in the expression is an escaped dollar. */
  ghost predicate FullMatches(re: Regex, s: string) {
    AtHead(re.items, !EndsInEscapedDollar(re), s)
  }

  lemma {:induction false} LastOfText(items: seq<Item>, ends: bool)
    requires ItemsOk(items)
    ensures var w := TailText(items, ends);
      (w != "" && w[|w| - 1] == '$') <==> ends || EndsInEscapedDollar(Regex(false, items, ends))
  {
    hide ItemOk, ItemText;
    if items != [] {
      LastOfText(items[1..], ends);
      LastOfItem(items[0]);
    }
  }

  lemma LastOfItem(t: Item)
    requires ItemOk(t)
    ensures ItemText(t)[|ItemText(t)| - 1] == '$' <==> t == Item(true, '$', Once)
  {
    hide IsInSet;
  }

  lemma {:induction false} TextWithEnd(items: seq<Item>)
    ensures TailText(items, true) == TailText(items, false) + "$"
  {
    hide ItemText;
    if items != [] {
      TextWithEnd(items[1..]);
      assert ItemText(items[0]) + (TailText(items[1..], false) + "$") == ItemText(items[0]) + TailText(items[1..], false) + "$";
    }
  }

  /** The full pattern is the text of the expression with its anchors put on, except
      that an escaped dollar at the end keeps the end anchor off. */
  lemma FullParse(re: Regex)
    requires ItemsOk(re.items)
    ensures FullPattern(Text(re)) == Text(Regex(true, re.items, !EndsInEscapedDollar(re)))
  {
    hide ItemsOk, TailText;
    TailBegins(re);
    LastOfText(re.items, re.ends);
    TextWithEnd(re.items);
  }

  lemma FullPasses(r: CString)
    requires Passes(r, true, false)
    ensures Clean(FullPattern(r)) && Passes(FullPattern(r), true, false)
    ensures Parse(FullPattern(r)) == Regex(true, Parse(r).items, !EndsInEscapedDollar(Parse(r)))
  {
    hide Passes, Parse, Text;
    PassesText(r);
    FullParse(Parse(r));
    TextParses(Regex(true, Parse(r).items, !EndsInEscapedDollar(Parse(r))), FullPattern(r));
  }

  lemma FullMeans(r: CString, s: string)
    requires Passes(r, true, false)
    ensures Clean(FullPattern(r)) && (Matches(Parse(FullPattern(r)), s) <==> FullMatches(Parse(r), s))
  {
    hide Passes, Parse, FullPattern, InItems;
    FullPasses(r);
    AnchoredMatches(Parse(FullPattern(r)), s);
  }

  lemma AnchoredMatches(re: Regex, s: string)
    requires re.begins
    ensures Matches(re, s) <==> AtHead(re.items, re.ends, s)
  {
    hide InItems;
    forall j | 0 <= j <= |s| ensures s[0..j] == s[..j] {}
    if AtHead(re.items, re.ends, s) {
      var j :| 0 <= j <= |s| && (re.ends ==> j == |s|) && InItems(re.items, s[..j]);
      assert InItems(re.items, s[0..j]);
    }
  }

  // ------------------------------------------------ when a full match is a full match

  /** A character that an atom matches. */
  function Example(t: Item): char {
    if t.escaped then
      match t.c
      case 'd' => '0'
      case 'D' => 'a'
      case 'f' => 12 as char
      case 'n' => '\n'
      case 'r' => '\r'
      case 's' => ' '
      case 'S' => 'a'
      case 't' => '\t'
      case 'v' => 11 as char
      case 'w' => 'a'
      case 'W' => ' '
      case _ => t.c
    else
      t.c
  }

  function Examples(items: seq<Item>): string {
    if items == [] then "" else [Example(items[0])] + Examples(items[1..])
  }

  lemma ExampleFits(t: Item)
    requires ItemOk(t)
    ensures AtomMatchesChar(t.escaped, t.c, Example(t)) && Example(t) != '\0'
  {
    hide IsRepeat;
  }

  /** Every sequence of items matches some string. */
  lemma {:induction false} ExamplesFit(items: seq<Item>)
    requires ItemsOk(items)
    ensures InItems(items, Examples(items)) && Clean(Examples(items))
  {
    hide ItemOk, Example, AtomMatchesChar;
    if items != [] {
      ExamplesFit(items[1..]);
      ExampleFits(items[0]);
      var w := Examples(items);
      assert w[..1] == [Example(items[0])] && w[1..] == Examples(items[1..]);
      assert InItem(items[0], w[..1]);
    }
  }

  lemma {:induction false} EndsInDollar(items: seq<Item>, w: string)
    requires items != [] && items[|items| - 1] == Item(true, '$', Once) && InItems(items, w)
    ensures w != "" && w[|w| - 1] == '$'
  {
    var k :| 0 <= k <= |w| && InItem(items[0], w[..k]) && InItems(items[1..], w[k..]);
    if |items| > 1 {
      EndsInDollar(items[1..], w[k..]);
    } else {
      assert w[..k] == w && w[0] == w[..k][0];
    }
  }

  /** Full matching does what its name says for every string exactly when the
      expression does not end in an escaped dollar. */
  lemma FullMatchExact(re: Regex)
    requires ItemsOk(re.items)
    ensures (forall s: CString :: FullMatches(re, s) <==> InItems(re.items, s)) <==> !EndsInEscapedDollar(re)
  {
    hide InItems, ItemsOk;
    if EndsInEscapedDollar(re) {
      ExamplesFit(re.items);
      var w := Examples(re.items);
      var s := w + "x";
      assert s[..|w|] == w;
      assert FullMatches(re, s);
      if InItems(re.items, s) { EndsInDollar(re.items, s); }
      assert !(FullMatches(re, s) <==> InItems(re.items, s));
    } else {
      forall s: CString ensures FullMatches(re, s) <==> InItems(re.items, s) {
        assert s[..|s|] == s;
        if FullMatches(re, s) {
          var j :| 0 <= j <= |s| && j == |s| && InItems(re.items, s[..j]);
        }
      }
    }
  }

  /** The smallest failure: the pattern is one escaped dollar. */
  lemma DollarFails()
    ensures var r: CString := "\\$"; Passes(r, true, false) && FullMatches(Parse(r), "$x") && !InItems(Parse(r).items, "$x")
  {
    hide InItems;
    var t := Item(true, '$', Once);
    var re := Regex(false, [t], false);
    assert [t][1..] == [];
    assert TailText([t], false) == "\\$" by { assert TailText([], false) == ""; }
    assert Text(re) == "\\$";
    TextParses(re, "\\$");
    ExamplesFit([t]);
    assert Examples([t]) == "$" by { assert Examples([]) == ""; }
    assert "$x"[..1] == "$";
    if InItems([t], "$x") { EndsInDollar([t], "$x"); }
  }
}
