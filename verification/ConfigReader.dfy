// The reader of configuration files: lines of the form key = value.
module ConfigReaders {
  import opened Containers

  // ------------------------------------------------------------- what a line means

  predicate Blank(c: char) {
    c == ' ' || c == '\t'
  }

  ghost predicate BlankIn(s: string, from: nat, end: nat) {
    forall i | from <= i < end && i < |s| :: Blank(s[i])
  }

  ghost predicate Lacks(s: string, c: char, from: nat, end: nat) {
    forall i | from <= i < end && i < |s| :: s[i] != c
  }

  ghost function TrimLeft(s: string): string {
    if s != "" && Blank(s[0]) then TrimLeft(s[1..]) else s
  }

  ghost function TrimRight(s: string): string {
    if s != "" && Blank(s[|s| - 1]) then TrimRight(s[..|s| - 1]) else s
  }

  /** How much of the string comes before the first c. */
  function Before(s: string, c: char): (n: nat)
    ensures n <= |s|
  {
    if s == "" || s[0] == c then 0 else 1 + Before(s[1..], c)
  }

  /** A line is ignored, stores an entry, or makes std::string throw out_of_range. */
  datatype Outcome = Ignored | Throws | Entry(key: string, value: string)

  /** The key of a line whose first '=' is at p: with only blanks before it, the key is what begins with the '='. */
  ghost function KeyOf(line: string, p: nat): string
    requires p < |line|
  {
    if p == 0 then TrimRight(line)
    else if BlankIn(line, 0, p) then line[p..]
    else TrimRight(TrimLeft(line[..p]))
  }

  /**
   * The value, from what follows the '='. A value with a quote runs from behind the first quote to in front of the
   * last character that is not blank. Any other value does without the character right behind the '='.
   */
  ghost function EntryOf(key: string, rest: string): Outcome {
    var q := Before(rest, '"');
    if q < |rest| then
      var body := TrimRight(rest[q + 1..]);
      if body == "" then Ignored else Entry(key, body[..|body| - 1])
    else
      var body := UnquotedBody(rest);
      if body == "" then Throws else Entry(key, body)
  }

  ghost function UnquotedBody(rest: string): string {
    if rest == "" then "" else TrimRight(TrimLeft(rest[1..]))
  }

  ghost function Meaning(line: string): Outcome {
    var p := Before(line, '=');
    if Before(line, '#') < |line| || p == |line| then Ignored
    else EntryOf(KeyOf(line, p), line[p + 1..])
  }

  // ------------------------------------------------------------- std::string's searches

  const NPOS: nat := 0xFFFF_FFFF_FFFF_FFFF

  /** Arithmetic on size_t. */
  function SizeT(x: int): nat {
    x % 0x1_0000_0000_0000_0000
  }

  lemma {:induction false} SizeTOf(x: int)
    requires x + NPOS >= 0 && x <= NPOS
    ensures SizeT(x) == if x >= 0 then x else x + NPOS + 1
  {
  }

  function Find(s: string, c: char, from: nat): (r: nat)
    requires |s| < NPOS
    ensures r == NPOS || from <= r < |s|
    decreases |s| - from
  {
    if from >= |s| then NPOS else if s[from] == c then from else Find(s, c, from + 1)
  }

  lemma {:induction false} FindsFirst(s: string, c: char, from: nat)
    requires |s| < NPOS
    ensures var r := Find(s, c, from);
            && Lacks(s, c, from, if r == NPOS then |s| else r)
            && (r != NPOS ==> s[r] == c)
    decreases |s| - from
  {
    if from < |s| && s[from] != c {
      FindsFirst(s, c, from + 1);
    }
  }

  function FindFirstNotBlank(s: string, from: nat): (r: nat)
    requires |s| < NPOS
    ensures r == NPOS || from <= r < |s|
    decreases |s| - from
  {
    if from >= |s| then NPOS else if !Blank(s[from]) then from else FindFirstNotBlank(s, from + 1)
  }

  lemma {:induction false} FindsFirstNotBlank(s: string, from: nat)
    requires |s| < NPOS
    ensures var r := FindFirstNotBlank(s, from);
            && BlankIn(s, from, if r == NPOS then |s| else r)
            && (r != NPOS ==> !Blank(s[r]))
    decreases |s| - from
  {
    if from < |s| && Blank(s[from]) {
      FindsFirstNotBlank(s, from + 1);
    }
  }

  /** Searches backwards from the given position, or from the end of the string if that comes first. */
  function FindLastNotBlank(s: string, from: nat): (r: nat)
    requires |s| < NPOS
    ensures r == NPOS || (r < |s| && r <= from)
    decreases if from >= |s| then |s| else from
  {
    if s == "" then NPOS
    else if from >= |s| then FindLastNotBlank(s, |s| - 1)
    else if !Blank(s[from]) then from
    else if from == 0 then NPOS
    else FindLastNotBlank(s, from - 1)
  }

  lemma {:induction false} FindsLastNotBlank(s: string, from: nat)
    requires |s| < NPOS
    ensures var r := FindLastNotBlank(s, from);
            && BlankIn(s, if r == NPOS then 0 else r + 1, if from >= |s| then |s| else from + 1)
            && (r != NPOS ==> !Blank(s[r]))
    decreases if from >= |s| then |s| else from
  {
    if s != "" {
      if from >= |s| {
        FindsLastNotBlank(s, |s| - 1);
      } else if Blank(s[from]) && from > 0 {
        FindsLastNotBlank(s, from - 1);
      }
    }
  }

  /** The part of the string at the position, cut short at its end; None if the position lies beyond the end. */
  function SubString(s: string, begin: nat, count: nat): Option<string> {
    if begin > |s| then None
    else if begin + count <= |s| then Some(s[begin..begin + count])
    else Some(s[begin..])
  }

  lemma {:induction false} PartOf(s: string, begin: nat, end: nat)
    requires begin <= end <= |s| < NPOS
    ensures SubString(s, begin, SizeT(end - begin)) == Some(s[begin..end])
  {
    SizeTOf(end - begin);
  }

  lemma {:induction false} TrimLeftAt(s: string, from: nat, k: nat)
    requires from <= k <= |s| && BlankIn(s, from, k) && (k < |s| ==> !Blank(s[k]))
    ensures TrimLeft(s[from..]) == s[k..]
    decreases k - from
  {
    if from < k {
      TrimLeftAt(s, from + 1, k);
      assert s[from..][1..] == s[from + 1..];
    }
  }

  lemma {:induction false} TrimRightAt(s: string, from: nat, end: nat, k: nat)
    requires from <= k <= end <= |s| && BlankIn(s, k, end) && (k > from ==> !Blank(s[k - 1]))
    ensures TrimRight(s[from..end]) == s[from..k]
    decreases end - k
  {
    hide TrimRight;
    if k < end {
      assert Blank(s[end - 1]);
      TrimRightAt(s, from, end - 1, k);
      TrimRightOnce(s, from, end);
    } else if from < k {
      TrimRightNot(s, from, k);
    } else {
      TrimNothing();
    }
  }

  lemma {:induction false} TrimRightOnce(s: string, from: nat, end: nat)
    requires from < end <= |s| && Blank(s[end - 1])
    ensures TrimRight(s[from..end]) == TrimRight(s[from..end - 1])
  {
    var t := s[from..end];
    assert t[|t| - 1] == s[end - 1] && t[..|t| - 1] == s[from..end - 1];
  }

  lemma {:induction false} TrimRightNot(s: string, from: nat, end: nat)
    requires from < end <= |s| && !Blank(s[end - 1])
    ensures TrimRight(s[from..end]) == s[from..end]
  {
    var t := s[from..end];
    assert t[|t| - 1] == s[end - 1];
  }

  lemma {:induction false} TrimNothing()
    ensures TrimRight("") == "" && TrimLeft("") == ""
  {
  }

  lemma {:induction false} BeforeAt(s: string, c: char, from: nat, n: nat)
    requires from <= n <= |s| && Lacks(s, c, from, n) && (n < |s| ==> s[n] == c)
    ensures Before(s[from..], c) == n - from
    decreases n - from
  {
    if from < n {
      BeforeAt(s, c, from + 1, n);
      assert s[from..][1..] == s[from + 1..];
    }
  }

  // ------------------------------------------------------------------------ the files

  /** What is left of a line as a C string. */
  function CString(s: string): string {
    s[..Before(s, '\0')]
  }

  const LINE_SIZE := 100

  /** Lines of up to 99 characters; a longer one ends the reading. */
  function Lines(text: string): seq<string>
    decreases |text|
  {
    var n := Before(text, '\n');
    if text == "" || n >= LINE_SIZE then []
    else [CString(text[..n])] + Lines(if n == |text| then "" else text[n + 1..])
  }

  type Configs = map<string, string>

  /** std::map::insert keeps what is there. */
  function Stored(configs: Configs, outcome: Outcome): Configs {
    if outcome.Entry? && outcome.key !in configs then configs[outcome.key := outcome.value] else configs
  }

  datatype Loaded = Loaded(configs: Configs, threw: bool)

  /** The lines in order, up to the first that throws. */
  ghost function Load(configs: Configs, lines: seq<string>): Loaded
    decreases |lines|
  {
    if lines == [] then Loaded(configs, false)
    else if Meaning(lines[0]) == Throws then Loaded(configs, true)
    else Load(Stored(configs, Meaning(lines[0])), lines[1..])
  }

  class ConfigReader {
    var configs: Configs

    constructor ()
      ensures configs == map[]
    {
      configs := map[];
    }

    /** Finds what the line means by index arithmetic on it. */
    method ParseLine(line: string) returns (threw: bool)
      requires |line| < NPOS
      modifies this
      ensures threw == (Meaning(line) == Throws)
      ensures configs == Stored(old(configs), Meaning(line))
    {
      hide *;
      if NPOS != Find(line, '#', 0) {
        CommentMeans(line);
        return false;
      }
      var pos: int := Find(line, '=', 0);
      if NPOS == pos {
        NothingMeans(line);
        return false;
      }
      EntryMeans(line, pos);
      var keyBegin: int := FindFirstNotBlank(line, 0);
      var keyEnd: int := FindLastNotBlank(line, SizeT(pos - 1));
      var key := SubString(line, keyBegin, SizeT(keyEnd - keyBegin + 1));
      KeyFound(line, pos, keyBegin, keyEnd, key);

      pos := pos + 1;
      var valueBegin: int := pos;
      var valueEnd: int := FindLastNotBlank(line, NPOS);
      var value;
      var quotationBegin: int := Find(line, '"', valueBegin);
      if NPOS != quotationBegin {
        var quotationEnd := valueEnd;
        QuotedFound(line, pos, quotationBegin, quotationEnd, key.value);
        if quotationEnd <= quotationBegin {
          return false;
        }
        value := SubString(line, quotationBegin + 1, SizeT(quotationEnd - quotationBegin - 1));
      } else {
        valueBegin := FindFirstNotBlank(line, pos + 1);
        UnquotedFound(line, pos, valueBegin, valueEnd, key.value);
        value := SubString(line, valueBegin, SizeT(valueEnd - valueBegin + 1));
        if value == None {
          return true;
        }
      }
      configs := Stored(configs, Entry(key.value, value.value));
      return false;
    }

    /** The file as a text, or None if it cannot be opened. */
    method Init(file: Option<string>) returns (threw: bool)
      modifies this
      ensures file == None ==> configs == old(configs) && !threw
      ensures file.Some? ==> Loaded(configs, threw) == Load(old(configs), Lines(file.value))
    {
      if file == None {
        return false;
      }
      var lines := ReadLines(file.value);
      threw := false;
      var i := 0;
      while i < |lines| && !threw
        invariant i <= |lines|
        invariant if threw then Load(old(configs), lines) == Loaded(configs, true)
                  else Load(old(configs), lines) == Load(configs, lines[i..])
      {
        threw := ParseLine(lines[i]);
        i := i + 1;
      }
    }
  }

  /** The loop around getline. */
  method ReadLines(text: string) returns (lines: seq<string>)
    ensures lines == Lines(text)
    ensures forall i | 0 <= i < |lines| :: |lines[i]| < 100
  {
    lines := [];
    var rest := text;
    var n := Before(rest, '\n');
    while rest != "" && n < LINE_SIZE
      invariant n == Before(rest, '\n')
      invariant lines + Lines(rest) == Lines(text)
      invariant forall i | 0 <= i < |lines| :: |lines[i]| < LINE_SIZE
      decreases |rest|
    {
      lines := lines + [CString(rest[..n])];
      rest := if n == |rest| then "" else rest[n + 1..];
      n := Before(rest, '\n');
    }
  }

  lemma {:induction false} CommentMeans(line: string)
    requires |line| < NPOS && Find(line, '#', 0) != NPOS
    ensures Meaning(line) == Ignored && forall configs :: Stored(configs, Ignored) == configs
  {
    FindsFirst(line, '#', 0);
    BeforeAt(line, '#', 0, Find(line, '#', 0));
    assert line[0..] == line;
  }

  lemma {:induction false} NothingMeans(line: string)
    requires |line| < NPOS && Find(line, '=', 0) == NPOS
    ensures Meaning(line) == Ignored && forall configs :: Stored(configs, Ignored) == configs
  {
    FindsFirst(line, '=', 0);
    BeforeAt(line, '=', 0, |line|);
    assert line[0..] == line;
  }

  lemma {:induction false} EntryMeans(line: string, p: nat)
    requires |line| < NPOS && Find(line, '#', 0) == NPOS && p == Find(line, '=', 0) != NPOS
    ensures line[p] == '=' && Meaning(line) == EntryOf(KeyOf(line, p), line[p + 1..])
  {
    FindsFirst(line, '#', 0);
    FindsFirst(line, '=', 0);
    hide EntryOf, KeyOf, Find, Before;
    BeforeAt(line, '=', 0, p);
    BeforeAt(line, '#', 0, |line|);
    assert line[0..] == line;
  }

  lemma {:induction false} KeyFound(line: string, p: nat, begin: nat, end: nat, key: Option<string>)
    requires |line| < NPOS && p < |line| && line[p] == '='
    requires begin == FindFirstNotBlank(line, 0) && end == FindLastNotBlank(line, SizeT(p - 1))
    requires key == SubString(line, begin, SizeT(end - begin + 1))
    ensures key == Some(KeyOf(line, p))
  {
    SizeTOf(p - 1);
    hide *;
    EqualsIsNotBlank(line[p]);
    if p == 0 {
      KeyFoundFirst(line, begin, end);
    } else if BlankIn(line, 0, p) {
      BlankKey(line, p, begin, end);
      KeyBehindBlanks(line, p);
    } else {
      KeyFoundBefore(line, p, begin, end);
    }
  }

  lemma {:induction false} KeyFoundFirst(line: string, begin: nat, end: nat)
    requires 0 < |line| < NPOS && !Blank(line[0]) && begin == FindFirstNotBlank(line, 0)
    requires end == FindLastNotBlank(line, NPOS)
    ensures SubString(line, begin, SizeT(end - begin + 1)) == Some(KeyOf(line, 0))
  {
    hide *;
    FirstKey(line, begin, end);
    PartOf(line, 0, end + 1);
    KeyAtStart(line);
  }

  lemma {:induction false} KeyFoundBefore(line: string, p: nat, begin: nat, end: nat)
    requires 0 < p < |line| < NPOS && !BlankIn(line, 0, p)
    requires begin == FindFirstNotBlank(line, 0) && end == FindLastNotBlank(line, p - 1)
    ensures SubString(line, begin, SizeT(end - begin + 1)) == Some(KeyOf(line, p))
  {
    hide *;
    var k := SomeNotBlank(line, p);
    TrimmedKey(line, p, begin, end, k);
    PartOf(line, begin, end + 1);
    KeyBefore(line, p);
  }

  lemma {:induction false} EqualsIsNotBlank(c: char)
    ensures c == '=' ==> !Blank(c)
  {
  }

  lemma {:induction false} SomeNotBlank(line: string, p: nat) returns (k: nat)
    requires p < |line| && !BlankIn(line, 0, p)
    ensures k < p && !Blank(line[k])
  {
    k :| k < p && !Blank(line[k]);
  }

  lemma {:induction false} KeyAtStart(line: string)
    requires line != ""
    ensures KeyOf(line, 0) == TrimRight(line)
  {
  }

  lemma {:induction false} KeyBehindBlanks(line: string, p: nat)
    requires 0 < p < |line| && BlankIn(line, 0, p)
    ensures KeyOf(line, p) == line[p..]
  {
  }

  lemma {:induction false} KeyBefore(line: string, p: nat)
    requires 0 < p < |line| && !BlankIn(line, 0, p)
    ensures KeyOf(line, p) == TrimRight(TrimLeft(line[..p]))
  {
    hide TrimRight, TrimLeft, BlankIn;
  }

  lemma {:induction false} FirstKey(line: string, begin: nat, end: nat)
    requires 0 < |line| < NPOS && !Blank(line[0]) && begin == FindFirstNotBlank(line, 0)
        && end == FindLastNotBlank(line, NPOS)
    ensures begin == 0 && end < |line| && TrimRight(line) == line[0..end + 1]
  {
    FindsFirstNotBlank(line, 0);
    FindsLastNotBlank(line, NPOS);
    hide FindFirstNotBlank, FindLastNotBlank, TrimRight, Blank;
    assert begin == 0 && end < |line|;
    TrimRightAt(line, 0, |line|, end + 1);
    assert line[0..|line|] == line;
  }

  /** The length wraps around to one that reaches beyond the end of the line. */
  lemma {:induction false} BlankKey(line: string, p: nat, begin: nat, end: nat)
    requires 0 < p < |line| < NPOS && begin == FindFirstNotBlank(line, 0) && end == FindLastNotBlank(line, p - 1)
    requires BlankIn(line, 0, p) && !Blank(line[p])
    ensures SubString(line, begin, SizeT(end - begin + 1)) == Some(line[p..])
  {
    FindsFirstNotBlank(line, 0);
    FindsLastNotBlank(line, p - 1);
    hide FindFirstNotBlank, FindLastNotBlank, SizeT;
    SizeTOf(end - begin + 1);
  }

  lemma {:induction false} TrimmedKey(line: string, p: nat, begin: nat, end: nat, k: nat)
    requires 0 < p < |line| < NPOS && begin == FindFirstNotBlank(line, 0) && end == FindLastNotBlank(line, p - 1)
    requires k < p && !Blank(line[k])
    ensures begin <= k <= end < p
    ensures TrimRight(TrimLeft(line[..p])) == line[begin..end + 1]
  {
    FindsFirstNotBlank(line, 0);
    FindsLastNotBlank(line, p - 1);
    hide FindFirstNotBlank, FindLastNotBlank, TrimLeft, TrimRight, Blank;
    assert begin <= k <= end < p;
    TrimLeftUpTo(line, 0, p, begin);
    Whole(line, p);
    TrimRightAt(line, begin, p, end + 1);
  }

  lemma {:induction false} TrimLeftUpTo(s: string, from: nat, end: nat, k: nat)
    requires from <= k < end <= |s| && BlankIn(s, from, k) && !Blank(s[k])
    ensures TrimLeft(s[from..end]) == s[k..end]
    decreases k - from
  {
    if from < k {
      TrimLeftUpTo(s, from + 1, end, k);
      assert s[from..end][1..] == s[from + 1..end];
    }
  }

  lemma {:induction false} Whole(s: string, end: nat)
    requires end <= |s|
    ensures s[0..end] == s[..end]
  {
  }

  lemma {:induction false} Tail(s: string, begin: nat)
    requires begin <= |s|
    ensures s[begin..|s|] == s[begin..]
  {
  }

  lemma {:induction false} Suffix(s: string, begin: nat, more: nat)
    requires begin + more <= |s|
    ensures s[begin..][more..] == s[begin + more..]
  {
  }

  lemma {:induction false} Init(s: string, begin: nat, end: nat)
    requires begin < end <= |s|
    ensures s[begin..end][..end - begin - 1] == s[begin..end - 1]
  {
  }

  lemma {:induction false} QuotedFound(line: string, from: nat, q: nat, end: nat, key: string)
    requires 0 < from <= |line| < NPOS && line[from - 1] == '='
    requires q == Find(line, '"', from) && q != NPOS && end == FindLastNotBlank(line, NPOS)
    ensures q <= end < |line|
    ensures end <= q ==> EntryOf(key, line[from..]) == Ignored && forall configs :: Stored(configs, Ignored) == configs
    ensures end > q ==>
              var value := SubString(line, q + 1, SizeT(end - q - 1));
              value.Some? && EntryOf(key, line[from..]) == Entry(key, value.value)
  {
    hide Find, FindLastNotBlank, TrimRight, Before, UnquotedBody, SubString, SizeT;
    QuotedBody(line, from, q, end);
    if end > q {
      Init(line, q + 1, end + 1);
      PartOf(line, q + 1, end);
    }
  }

  lemma {:induction false} QuotedBody(line: string, from: nat, q: nat, end: nat)
    requires 0 < from <= |line| < NPOS
    requires q == Find(line, '"', from) && q != NPOS && end == FindLastNotBlank(line, NPOS)
    ensures q <= end < |line| && Before(line[from..], '"') == q - from
    ensures TrimRight(line[from..][q - from + 1..]) == line[q + 1..end + 1]
  {
    FindsFirst(line, '"', from);
    hide *;
    BeforeAt(line, '"', from, q);
    QuoteIsNotBlank(line[q]);
    EndsAfter(line, q, end);
    QuotedPart(line, from, q, end);
  }

  lemma {:induction false} QuotedPart(line: string, from: nat, q: nat, end: nat)
    requires from <= q <= end < |line| && !Blank(line[end]) && BlankIn(line, end + 1, |line|)
    ensures TrimRight(line[from..][q - from + 1..]) == line[q + 1..end + 1]
  {
    hide *;
    TrimRightAt(line, q + 1, |line|, end + 1);
    Tail(line, q + 1);
    Suffix(line, from, q - from + 1);
  }

  lemma {:induction false} QuoteIsNotBlank(c: char)
    ensures c == '"' ==> !Blank(c)
  {
  }

  lemma {:induction false} UnquotedFound(line: string, from: nat, begin: nat, end: nat, key: string)
    requires 0 < from <= |line| < NPOS && line[from - 1] == '='
    requires Find(line, '"', from) == NPOS
    requires begin == FindFirstNotBlank(line, from + 1) && end == FindLastNotBlank(line, NPOS)
    ensures begin != NPOS ==> begin <= end < |line|
    ensures var value := SubString(line, begin, SizeT(end - begin + 1));
            EntryOf(key, line[from..]) == if value == None then Throws else Entry(key, value.value)
    ensures forall configs :: Stored(configs, Throws) == configs
  {
    hide *;
    FindsFirst(line, '"', from);
    BeforeAt(line, '"', from, |line|);
    EntryUnquoted(key, line[from..]);
    ThrowsStoresNothing();
    if begin == NPOS {
      NoBody(line, from);
      BeyondEnd(line, SizeT(end - begin + 1));
    } else {
      Body(line, from, begin, end);
      PartOf(line, begin, end + 1);
    }
  }

  lemma {:induction false} BeyondEnd(line: string, count: nat)
    requires |line| < NPOS
    ensures SubString(line, NPOS, count) == None
  {
  }

  lemma {:induction false} ThrowsStoresNothing()
    ensures forall configs :: Stored(configs, Throws) == configs
  {
  }

  lemma {:induction false} EntryUnquoted(key: string, rest: string)
    requires Before(rest, '"') == |rest|
    ensures EntryOf(key, rest) == if UnquotedBody(rest) == "" then Throws else Entry(key, UnquotedBody(rest))
  {
    hide Before, UnquotedBody, TrimRight;
  }

  lemma {:induction false} NoBody(line: string, from: nat)
    requires from <= |line| < NPOS && FindFirstNotBlank(line, from + 1) == NPOS
    ensures UnquotedBody(line[from..]) == ""
  {
    FindsFirstNotBlank(line, from + 1);
    hide FindFirstNotBlank, TrimLeft;
    if from < |line| {
      assert line[from..][1..] == line[from + 1..];
      TrimLeftAt(line, from + 1, |line|);
    }
  }

  lemma {:induction false} Body(line: string, from: nat, begin: nat, end: nat)
    requires from <= |line| < NPOS
    requires begin == FindFirstNotBlank(line, from + 1) && begin != NPOS && end == FindLastNotBlank(line, NPOS)
    ensures begin <= end < |line|
    ensures UnquotedBody(line[from..]) == line[begin..end + 1]
  {
    FindsFirstNotBlank(line, from + 1);
    EndsAfter(line, begin, end);
    hide FindFirstNotBlank, FindLastNotBlank, TrimRight, TrimLeft, BlankIn, Blank;
    TrimLeftAt(line, from + 1, begin);
    TrimRightAt(line, begin, |line|, end + 1);
    Tail(line, begin);
    Suffix(line, from, 1);
  }

  lemma {:induction false} EndsAfter(line: string, k: nat, end: nat)
    requires k < |line| < NPOS && !Blank(line[k]) && end == FindLastNotBlank(line, NPOS)
    ensures k <= end < |line| && !Blank(line[end]) && BlankIn(line, end + 1, |line|)
  {
    FindsLastNotBlank(line, NPOS);
    hide FindLastNotBlank;
  }
}
