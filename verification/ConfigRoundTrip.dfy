// What comes back from a configuration file that has been written: which lines survive, and which do not.
module ConfigRoundTrips {
  import opened ConfigReaders

  /** A key, or a value without quotes: it neither begins nor ends with a blank. */
  ghost predicate Trimmed(s: string) {
    s != "" && s[0] !in {' ', '\t'} && s[|s| - 1] !in {' ', '\t'}
  }

  ghost predicate Blanks(s: string) {
    forall i | 0 <= i < |s| :: s[i] == ' ' || s[i] == '\t'
  }

  ghost predicate Without(s: string, c: char) {
    Lacks(s, c, 0, |s|)
  }

  /** A setting with the blanks around its key and its value. */
  datatype Setting = Setting(before: string, key: string, afterKey: string, beforeValue: string, value: string,
      after: string, quoted: bool)

  ghost predicate WellFormed(s: Setting) {
    && Blanks(s.before) && Blanks(s.afterKey) && Blanks(s.beforeValue) && Blanks(s.after)
    && Trimmed(s.key) && Without(s.key, '=') && Without(s.key, '#')
    && Without(s.value, '#')
    && (!s.quoted ==> Trimmed(s.value) && Without(s.value, '"'))
  }

  function Head(s: Setting): string {
    s.before + (s.key + s.afterKey)
  }

  function ValueText(s: Setting): string {
    if s.quoted then ['"'] + (s.value + ['"']) else s.value
  }

  function Tail(s: Setting): string {
    s.beforeValue + (ValueText(s) + s.after)
  }

  function Line(s: Setting): string {
    Head(s) + (['='] + Tail(s))
  }

  // ---------------------------------------------------------------- joining strings

  lemma {:induction false} JoinedWithout(s: string, t: string, c: char)
    requires Without(s, c) && Without(t, c)
    ensures Without(s + t, c)
  {
  }

  lemma {:induction false} BlanksAre(s: string, c: char)
    requires Blanks(s) && !Blank(c)
    ensures Without(s, c)
  {
  }

  lemma {:induction false} BeforeJoined(s: string, t: string, c: char)
    requires Without(s, c)
    ensures Before(s + t, c) == |s| + Before(t, c)
    decreases |s|
  {
    if s == "" {
      assert s + t == t;
    } else {
      assert (s + t)[0] == s[0] && (s + t)[1..] == s[1..] + t;
      assert Without(s[1..], c);
      BeforeJoined(s[1..], t, c);
    }
  }

  lemma {:induction false} BeforeNone(s: string, c: char)
    requires Without(s, c)
    ensures Before(s, c) == |s|
  {
    BeforeJoined(s, "", c);
    assert s + "" == s;
  }

  lemma {:induction false} TrimLeftJoined(s: string, t: string)
    requires Blanks(s)
    ensures TrimLeft(s + t) == TrimLeft(t)
    decreases |s|
  {
    if s == "" {
      assert s + t == t;
    } else {
      assert (s + t)[0] == s[0] && (s + t)[1..] == s[1..] + t;
      assert Blanks(s[1..]);
      TrimLeftJoined(s[1..], t);
    }
  }

  lemma {:induction false} TrimRightJoined(s: string, t: string)
    requires Blanks(t)
    ensures TrimRight(s + t) == TrimRight(s)
    decreases |t|
  {
    if t == "" {
      assert s + t == s;
    } else {
      var init := t[..|t| - 1];
      assert (s + t)[|s + t| - 1] == t[|t| - 1] && (s + t)[..|s + t| - 1] == s + init;
      assert Blanks(init);
      TrimRightJoined(s, init);
    }
  }

  /** What is left of blanks, a trimmed string and blanks. */
  lemma {:induction false} TrimBoth(before: string, s: string, after: string)
    requires Blanks(before) && Blanks(after) && Trimmed(s)
    ensures TrimRight(TrimLeft(before + (s + after))) == s
  {
    hide Blanks;
    TrimLeftJoined(before, s + after);
    assert (s + after)[0] == s[0];
    TrimRightJoined(s, after);
  }

  // --------------------------------------------------------------------- one line

  lemma {:induction false} LineMeans(s: Setting)
    requires WellFormed(s)
    ensures Meaning(Line(s)) == EntryOf(s.key, Tail(s))
  {
    var p, line := |Head(s)|, Line(s);
    NoComment(s);
    HeadKey(s);
    hide *;
    BeforeEquals(s);
    Split(Head(s), '=', Tail(s));
    LineParts(line, p);
  }

  lemma {:induction false} LineParts(line: string, p: nat)
    requires Before(line, '#') == |line| && Before(line, '=') == p < |line|
    ensures Meaning(line) == EntryOf(KeyOf(line, p), line[p + 1..])
  {
    hide EntryOf, KeyOf, Before;
  }

  lemma {:induction false} Split(s: string, c: char, t: string)
    ensures (s + ([c] + t))[..|s|] == s && (s + ([c] + t))[|s| + 1..] == t
    ensures (s + ([c] + t))[|s|] == c
  {
  }

  lemma {:induction false} BeforeEquals(s: Setting)
    requires WellFormed(s)
    ensures |Line(s)| > |Head(s)| && Before(Line(s), '=') == |Head(s)|
  {
    hide Without, Blanks;
    BlanksAre(s.before, '=');
    BlanksAre(s.afterKey, '=');
    JoinedWithout(s.key, s.afterKey, '=');
    JoinedWithout(s.before, s.key + s.afterKey, '=');
    BeforeJoined(Head(s), ['='] + Tail(s), '=');
  }

  lemma {:induction false} NoComment(s: Setting)
    requires WellFormed(s)
    ensures Before(Line(s), '#') == |Line(s)|
  {
    assert Without(['"'], '#') && Without(['='], '#');
    hide Without, Blanks, Before;
    BlanksAre(s.before, '#');
    BlanksAre(s.afterKey, '#');
    BlanksAre(s.beforeValue, '#');
    BlanksAre(s.after, '#');
    JoinedWithout(s.key, s.afterKey, '#');
    JoinedWithout(s.before, s.key + s.afterKey, '#');
    JoinedWithout(s.value, ['"'], '#');
    JoinedWithout(['"'], s.value + ['"'], '#');
    JoinedWithout(ValueText(s), s.after, '#');
    JoinedWithout(s.beforeValue, ValueText(s) + s.after, '#');
    JoinedWithout(['='], Tail(s), '#');
    JoinedWithout(Head(s), ['='] + Tail(s), '#');
    BeforeNone(Line(s), '#');
  }

  lemma {:induction false} HeadKey(s: Setting)
    requires WellFormed(s)
    ensures KeyOf(Line(s), |Head(s)|) == s.key
  {
    var head := Head(s);
    hide TrimLeft, TrimRight;
    TrimBoth(s.before, s.key, s.afterKey);
    Split(head, '=', Tail(s));
    assert head[|s.before|] == s.key[0] && Line(s)[|s.before|] == head[|s.before|];
    assert !BlankIn(Line(s), 0, |head|);
  }

  /** Whatever the blanks, a value in quotes comes back: it may be empty and may itself hold quotes and '='. */
  lemma {:induction false} QuotedRoundTrip(s: Setting)
    requires WellFormed(s) && s.quoted
    ensures Meaning(Line(s)) == Entry(s.key, s.value)
  {
    hide *;
    LineMeans(s);
    QuotedTail(s);
    EntryQuoted(s.key, Tail(s), |s.beforeValue|, s.value);
  }

  lemma {:induction false} QuotedTail(s: Setting)
    requires WellFormed(s) && s.quoted
    ensures Before(Tail(s), '"') == |s.beforeValue| < |Tail(s)|
    ensures TrimRight(Tail(s)[|s.beforeValue| + 1..]) == s.value + ['"']
  {
    var inner := s.value + ['"'] + s.after;
    assert ValueText(s) + s.after == ['"'] + inner;
    assert Before(['"'] + inner, '"') == 0;
    BlanksAre(s.beforeValue, '"');
    hide Blanks, Without, Before, TrimRight, ValueText;
    BeforeJoined(s.beforeValue, ['"'] + inner, '"');
    Split(s.beforeValue, '"', inner);
    TrimRightJoined(s.value + ['"'], s.after);
    QuoteStays(s.value);
  }

  lemma {:induction false} EntryQuoted(key: string, rest: string, q: nat, value: string)
    requires Before(rest, '"') == q < |rest|
    requires TrimRight(rest[q + 1..]) == value + ['"']
    ensures EntryOf(key, rest) == Entry(key, value)
  {
    hide Before, TrimRight;
    assert (value + ['"'])[..|value|] == value;
  }

  lemma {:induction false} QuoteStays(value: string)
    ensures TrimRight(value + ['"']) == value + ['"']
  {
  }

  /**
   * A value without quotes comes back exactly if a blank follows the '='. Otherwise its first character is lost,
   * and a value of one character ends the reading with an exception.
   */
  lemma {:induction false} UnquotedRoundTripIff(s: Setting)
    requires WellFormed(s) && !s.quoted
    ensures Meaning(Line(s)) == Entry(s.key, s.value) <==> s.beforeValue != ""
    ensures s.beforeValue == "" ==>
              Meaning(Line(s)) == if |s.value| == 1 then Throws else Entry(s.key, TrimLeft(s.value[1..]))
  {
    hide *;
    LineMeans(s);
    NoQuote(s);
    EntryUnquoted(s.key, Tail(s));
    UnquotedTail(s);
  }

  lemma {:induction false} UnquotedTail(s: Setting)
    requires WellFormed(s) && !s.quoted
    ensures s.beforeValue != "" ==> UnquotedBody(Tail(s)) == s.value != ""
    ensures s.beforeValue == "" && |s.value| == 1 ==> UnquotedBody(Tail(s)) == ""
    ensures s.value != "" && (s.beforeValue == "" && |s.value| > 1 ==>
              UnquotedBody(Tail(s)) == TrimLeft(s.value[1..]) != "" && |TrimLeft(s.value[1..])| < |s.value|)
  {
    hide TrimLeft, TrimRight;
    if s.beforeValue != "" {
      var blanks := s.beforeValue[1..];
      assert Blanks(blanks);
      assert Tail(s)[1..] == blanks + (s.value + s.after);
      TrimBoth(blanks, s.value, s.after);
    } else {
      assert Tail(s)[1..] == s.value[1..] + s.after;
      CutValue(s.value, s.after);
    }
  }

  lemma {:induction false} NoQuote(s: Setting)
    requires WellFormed(s) && !s.quoted
    ensures Before(Tail(s), '"') == |Tail(s)|
  {
    hide Without, Blanks, Before;
    BlanksAre(s.beforeValue, '"');
    BlanksAre(s.after, '"');
    JoinedWithout(s.value, s.after, '"');
    JoinedWithout(s.beforeValue, s.value + s.after, '"');
    BeforeNone(Tail(s), '"');
  }

  lemma {:induction false} TrimLeftIsTail(s: string)
    requires s != "" && !Blank(s[|s| - 1])
    ensures TrimLeft(s) != "" && |TrimLeft(s)| <= |s| && TrimLeft(s)[|TrimLeft(s)| - 1] == s[|s| - 1]
    decreases |s|
  {
    if Blank(s[0]) {
      TrimLeftIsTail(s[1..]);
    }
  }

  lemma {:induction false} TrimLeftKeeps(s: string, t: string)
    requires s != "" && !Blank(s[|s| - 1])
    ensures TrimLeft(s + t) == TrimLeft(s) + t
    decreases |s|
  {
    assert (s + t)[0] == s[0] && (s + t)[1..] == s[1..] + t;
    if Blank(s[0]) {
      TrimLeftKeeps(s[1..], t);
    }
  }

  /** What is left of a value whose first character is skipped. */
  lemma {:induction false} CutValue(value: string, after: string)
    requires Trimmed(value) && Blanks(after)
    ensures TrimRight(TrimLeft(value[1..] + after)) == if |value| == 1 then "" else TrimLeft(value[1..])
    ensures |value| > 1 ==> TrimLeft(value[1..]) != "" && |TrimLeft(value[1..])| < |value|
  {
    if |value| == 1 {
      TrimLeftJoined(after, "");
      assert value[1..] + after == after == after + "";
    } else {
      TrimLeftIsTail(value[1..]);
      TrimLeftKeeps(value[1..], after);
      TrimRightJoined(TrimLeft(value[1..]), after);
    }
  }

  // ------------------------------------------------------------- lines that store nothing

  /** Behind the first '=' there is one quote, at q, and nothing but blanks behind it. */
  ghost predicate LoneQuote(line: string, p: nat, q: nat) {
    && p < q < |line| && line[p] == '=' && line[q] == '"'
    && (forall i | 0 <= i < p :: line[i] != '=') && (forall i | p < i < q :: line[i] != '"')
    && (forall i | q < i < |line| :: line[i] == ' ' || line[i] == '\t')
  }

  /** A line is passed over exactly if it has a '#' anywhere, no '=', or a single quote at its end. */
  lemma {:induction false} IgnoredIff(line: string)
    ensures Meaning(line) == Ignored
            <==> '#' in line || '=' !in line || exists p: nat, q: nat :: LoneQuote(line, p, q)
  {
    BeforeIff(line, '#');
    BeforeIff(line, '=');
    var p := Before(line, '=');
    hide Before, TrimRight, TrimLeft, LoneQuote;
    if '#' !in line && '=' in line {
      LoneQuoteIff(line, p);
    }
  }

  lemma {:induction false} BeforeIff(s: string, c: char)
    ensures Before(s, c) < |s| <==> c in s
    ensures forall i | 0 <= i < Before(s, c) :: s[i] != c
    ensures Before(s, c) < |s| ==> s[Before(s, c)] == c
    decreases |s|
  {
    if s != "" && s[0] != c {
      BeforeIff(s[1..], c);
      assert forall i | 0 < i < |s| :: s[i] == s[1..][i - 1];
      assert s == [s[0]] + s[1..];
    }
  }

  lemma {:induction false} TrimRightToNothing(s: string)
    ensures TrimRight(s) == "" <==> Blanks(s)
    decreases |s|
  {
    if s != "" && Blank(s[|s| - 1]) {
      TrimRightToNothing(s[..|s| - 1]);
    }
  }

  lemma {:induction false} LoneQuoteIff(line: string, p: nat)
    requires p == Before(line, '=') < |line|
    ensures EntryOf(KeyOf(line, p), line[p + 1..]) == Ignored <==> exists a: nat, q: nat :: LoneQuote(line, a, q)
  {
    var k := Before(line[p + 1..], '"');
    QuoteOf(line, p);
    IgnoredEntryIff(KeyOf(line, p), line[p + 1..]);
    hide *;
    if p + 1 + k < |line| && Blanks(line[p + 1..][k + 1..]) {
      QuoteAlone(line, p, k);
    }
    if a: nat, b: nat :| LoneQuote(line, a, b) {
      AloneIsLast(line, p, k, a, b);
    }
  }

  /** Where the first quote behind the first '=' is. */
  lemma {:induction false} QuoteOf(line: string, p: nat)
    requires p == Before(line, '=') < |line|
    ensures var k := Before(line[p + 1..], '"');
            && line[p] == '=' && (forall i | 0 <= i < p :: line[i] != '=')
            && p + 1 + k <= |line| && (p + 1 + k < |line| ==> line[p + 1 + k] == '"')
            && (forall i | p < i < p + 1 + k :: line[i] != '"')
  {
    var rest := line[p + 1..];
    BeforeIff(line, '=');
    BeforeIff(rest, '"');
    hide Before;
    assert forall i | p < i < |line| :: line[i] == rest[i - p - 1];
  }

  lemma {:induction false} IgnoredEntryIff(key: string, rest: string)
    ensures EntryOf(key, rest) == Ignored <==> Before(rest, '"') < |rest| && Blanks(rest[Before(rest, '"') + 1..])
  {
    var k := Before(rest, '"');
    if k < |rest| {
      TrimRightToNothing(rest[k + 1..]);
    }
    hide Before, TrimRight, Blanks, UnquotedBody;
  }

  lemma {:induction false} QuoteAlone(line: string, p: nat, k: nat)
    requires p < |line| && line[p] == '=' && (forall i | 0 <= i < p :: line[i] != '=')
    requires p + 1 + k < |line| && line[p + 1 + k] == '"' && (forall i | p < i < p + 1 + k :: line[i] != '"')
    requires Blanks(line[p + 1..][k + 1..])
    ensures LoneQuote(line, p, p + 1 + k)
  {
    var q := p + 1 + k;
    assert forall i | q < i < |line| :: line[i] == line[p + 1..][k + 1..][i - q - 1];
  }

  lemma {:induction false} AloneIsLast(line: string, p: nat, k: nat, a: nat, b: nat)
    requires p < |line| && line[p] == '=' && (forall i | 0 <= i < p :: line[i] != '=')
    requires p + 1 + k <= |line| && (p + 1 + k < |line| ==> line[p + 1 + k] == '"')
    requires forall i | p < i < p + 1 + k :: line[i] != '"'
    requires LoneQuote(line, a, b)
    ensures p + 1 + k < |line| && Blanks(line[p + 1..][k + 1..])
  {
    assert a == p && b == p + 1 + k;
    var tail := line[p + 1..][k + 1..];
    assert forall i | 0 <= i < |tail| :: tail[i] == line[b + 1 + i];
  }

  // ------------------------------------------------------------------ a whole file

  function Joined(lines: seq<string>): string {
    if lines == [] then "" else lines[0] + (['\n'] + Joined(lines[1..]))
  }

  /** A line as it can stand in a file: getline and the C string leave it whole. */
  ghost predicate OneLine(line: string) {
    |line| < 100 && Without(line, '\n') && Without(line, '\0')
  }

  lemma {:induction false} FirstLine(line: string, rest: string)
    requires Without(line, '\n')
    ensures Before(line + (['\n'] + rest), '\n') == |line|
    ensures |line| < 100 && Without(line, '\0') ==> Lines(line + (['\n'] + rest)) == [line] + Lines(rest)
  {
    assert Before(['\n'] + rest, '\n') == 0;
    hide Without, Before;
    BeforeJoined(line, ['\n'] + rest, '\n');
    Split(line, '\n', rest);
    if Without(line, '\0') {
      BeforeNone(line, '\0');
      assert line[..|line|] == line;
    }
  }

  /** Lines of at most 99 characters are read back as they are; the first longer line and all behind it are not read. */
  lemma {:induction false} LinesRoundTrip(lines: seq<string>, rest: string)
    requires forall i | 0 <= i < |lines| :: OneLine(lines[i])
    requires rest == "" || (exists long: string, more: string ::
              rest == long + (['\n'] + more) && |long| >= 100 && Without(long, '\n'))
    ensures Lines(Joined(lines) + rest) == lines
    decreases |lines|
  {
    if lines == [] {
      assert Joined(lines) + rest == rest;
      if rest != "" {
        var long: string, more: string :| rest == long + (['\n'] + more) && |long| >= 100 && Without(long, '\n');
        FirstLine(long, more);
      }
    } else {
      var tail := Joined(lines[1..]) + rest;
      assert Joined(lines) + rest == lines[0] + (['\n'] + tail);
      assert OneLine(lines[0]);
      hide Lines;
      FirstLine(lines[0], tail);
      LinesRoundTrip(lines[1..], rest);
      assert [lines[0]] + lines[1..] == lines;
    }
  }

  /** The line is the first one that stores the key. */
  ghost predicate FirstFor(lines: seq<string>, i: int, key: string) {
    && 0 <= i < |lines| && Meaning(lines[i]).Entry? && Meaning(lines[i]).key == key
    && forall j | 0 <= j < i :: Meaning(lines[j]).Entry? ==> Meaning(lines[j]).key != key
  }

  ghost predicate NoneThrows(lines: seq<string>) {
    forall i | 0 <= i < |lines| :: Meaning(lines[i]) != Throws
  }

  /** Over a whole file each key has the value of the first line that stores it, and there are no other keys. */
  lemma {:induction false} FirstLineWins(configs: Configs, lines: seq<string>, key: string)
    requires NoneThrows(lines)
    ensures !Load(configs, lines).threw
    ensures key in configs ==> key in Load(configs, lines).configs && Load(configs, lines).configs[key] == configs[key]
    ensures key !in configs ==> (key in Load(configs, lines).configs <==> exists i :: FirstFor(lines, i, key))
    ensures key !in configs ==> forall i | FirstFor(lines, i, key) ::
              key in Load(configs, lines).configs && Load(configs, lines).configs[key] == Meaning(lines[i]).value
    decreases |lines|
  {
    if lines != [] {
      assert Meaning(lines[0]) != Throws;
      FirstLineWins(Stored(configs, Meaning(lines[0])), lines[1..], key);
      FirstForTail(lines, key);
      hide Meaning, FirstFor;
      if Meaning(lines[0]).Entry? && Meaning(lines[0]).key == key {
        assert FirstFor(lines, 0, key);
      }
    }
  }

  lemma {:induction false} FirstForTail(lines: seq<string>, key: string)
    requires lines != []
    ensures var m := Meaning(lines[0]);
            if m.Entry? && m.key == key then forall i :: FirstFor(lines, i, key) <==> i == 0
            else (forall i | FirstFor(lines[1..], i, key) :: FirstFor(lines, i + 1, key))
                 && (forall i | FirstFor(lines, i, key) ::
                       i > 0 && FirstFor(lines[1..], i - 1, key) && lines[1..][i - 1] == lines[i])
  {
    hide Meaning;
  }

  lemma {:induction false} LoadThrowsIff(configs: Configs, lines: seq<string>)
    ensures Load(configs, lines).threw <==> !NoneThrows(lines)
    decreases |lines|
  {
    if lines != [] {
      LoadThrowsIff(Stored(configs, Meaning(lines[0])), lines[1..]);
      hide Meaning, Stored;
      assert NoneThrows(lines) <==> Meaning(lines[0]) != Throws && NoneThrows(lines[1..]) by {
        assert lines == [lines[0]] + lines[1..];
      }
    }
  }

  ghost function Printed(settings: seq<Setting>): (lines: seq<string>)
    ensures |lines| == |settings|
    ensures forall i | 0 <= i < |settings| :: lines[i] == Line(settings[i])
  {
    seq(|settings|, i requires 0 <= i < |settings| => Line(settings[i]))
  }

  ghost predicate Printable(settings: seq<Setting>) {
    && (forall i | 0 <= i < |settings| :: WellFormed(settings[i]) && OneLine(Line(settings[i])))
    && (forall i, j | 0 <= i < j < |settings| :: settings[i].key != settings[j].key)
  }

  /** In quotes, or with a blank behind the '='. */
  predicate Survives(s: Setting) {
    s.quoted || s.beforeValue != ""
  }

  ghost predicate ReadBack(loaded: Loaded, settings: seq<Setting>) {
    && !loaded.threw
    && forall i | 0 <= i < |settings| ::
         settings[i].key in loaded.configs && loaded.configs[settings[i].key] == settings[i].value
  }

  lemma {:induction false} SettingMeans(s: Setting)
    requires WellFormed(s)
    ensures Meaning(Line(s)) == Entry(s.key, s.value) <==> Survives(s)
    ensures Meaning(Line(s)) == Throws || (Meaning(Line(s)).Entry? && Meaning(Line(s)).key == s.key)
  {
    hide WellFormed, Meaning, Line, TrimLeft;
    if s.quoted {
      QuotedRoundTrip(s);
    } else {
      UnquotedRoundTripIff(s);
    }
  }

  /** A file written from settings with different keys brings all of them back exactly if each of them survives. */
  lemma {:induction false} FileRoundTripIff(settings: seq<Setting>)
    requires Printable(settings)
    ensures ReadBack(Load(map[], Lines(Joined(Printed(settings)))), settings)
            <==> forall i | 0 <= i < |settings| :: Survives(settings[i])
  {
    var lines := Printed(settings);
    hide WellFormed, OneLine, Meaning, Line, Lines, Load, Survives, Joined;
    LinesRoundTrip(lines, "");
    assert Joined(lines) + "" == Joined(lines);
    LoadThrowsIff(map[], lines);
    forall i | 0 <= i < |settings|
      ensures Meaning(lines[i]) == Entry(settings[i].key, settings[i].value) <==> Survives(settings[i])
      ensures Meaning(lines[i]) == Throws || (Meaning(lines[i]).Entry? && Meaning(lines[i]).key == settings[i].key)
    {
      SettingMeans(settings[i]);
    }
    if NoneThrows(lines) {
      forall i | 0 <= i < |settings|
        ensures var c := Load(map[], lines).configs;
                settings[i].key in c && c[settings[i].key] == Meaning(lines[i]).value
      {
        FirstLineWins(map[], lines, settings[i].key);
        assert FirstFor(lines, i, settings[i].key);
      }
    }
  }
}
