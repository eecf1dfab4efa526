/** Directory files: text with one "name number " entry after another, as the image tool
    prints it and as the lookup of the system library reads it back. */
module Directory {
  import opened Basics

  // ----- Printing

  datatype Entry = Entry(name: string, ino: nat)

  predicate IsDigit(c: char) { '0' <= c <= '9' }

  function DigitChar(d: nat): (c: char)
    requires d < 10
    ensures IsDigit(c) && c as int - '0' as int == d
  {
    "0123456789"[d]
  }

  function Digits(n: nat): (s: string)
    ensures |s| > 0 && forall k :: 0 <= k < |s| ==> IsDigit(s[k])
  {
    if n < 10 then [DigitChar(n)] else Digits(n / 10) + [DigitChar(n % 10)]
  }

  function Spaces(k: nat): (s: string)
    ensures |s| == k && forall i :: 0 <= i < k ==> s[i] == ' '
  {
    seq(k, i => ' ')
  }

  /** A number right-justified in four columns. */
  function Column(n: nat): (s: string) {
    var d := Digits(n);
    if |d| < 4 then Spaces(4 - |d|) + d else d
  }

  function Line(e: Entry): (s: string) { e.name + Column(e.ino) + " " }

  function Print(entries: seq<Entry>): (s: string) {
    if entries == [] then "" else Line(entries[0]) + Print(entries[1..])
  }

  // ----- Reading

  /** The length of the C string at the start of the buffer. */
  function Strlen(buf: string): (n: nat)
    requires '\0' in buf
    ensures n < |buf| && buf[n] == '\0' && '\0' !in buf[..n]
  {
    if buf[0] == '\0' then 0 else
      assert buf == [buf[0]] + buf[1..];
      assert forall k :: 0 <= k < 1 + Strlen(buf[1..]) ==> buf[..1 + Strlen(buf[1..])][k] == buf[k];
      1 + Strlen(buf[1..])
  }

  predicate IsSpace(c: char) { c == ' ' || '\t' <= c <= '\r' }

  function SkipSpaces(s: string): string {
    if s != [] && IsSpace(s[0]) then SkipSpaces(s[1..]) else s
  }

  function ParseDigits(s: string, acc: nat): nat
    decreases s
  {
    if s != [] && IsDigit(s[0]) then ParseDigits(s[1..], 10 * acc + (s[0] as int - '0' as int)) else acc
  }

  function Atoi(s: string): int {
    var t := SkipSpaces(s);
    if t != [] && t[0] == '-' then -(ParseDigits(t[1..], 0) as int)
    else if t != [] && t[0] == '+' then ParseDigits(t[1..], 0)
    else ParseDigits(t, 0)
  }

  /** The name stands at position i, at the start or behind a space, and before a space. */
  predicate Match(text: string, name: string, i: nat) {
    && i + |name| < |text| && text[i..i + |name|] == name && text[i + |name|] == ' '
    && (i == 0 || text[i - 1] == ' ')
  }

  /** The number behind the first match at or after position i. */
  function Search(text: string, name: string, i: nat): int
    decreases |text| - i
  {
    if i + |name| >= |text| then -1
    else if Match(text, name, i) then Atoi(text[i + |name|..])
    else Search(text, name, i + 1)
  }

  /** The first match at or after position i, or the length of the text. */
  function FirstMatch(text: string, name: string, i: nat): (k: nat)
    requires i <= |text|
    ensures i <= k <= |text| && (k < |text| ==> Match(text, name, k))
    ensures forall j :: i <= j < k ==> !Match(text, name, j)
    decreases |text| - i
  {
    if i == |text| || Match(text, name, i) then i else FirstMatch(text, name, i + 1)
  }

  /** What is left behind the number that atoi reads. */
  function BehindDigits(s: string): string {
    if s != [] && IsDigit(s[0]) then BehindDigits(s[1..]) else s
  }

  function BehindAtoi(s: string): string {
    var t := SkipSpaces(s);
    BehindDigits(if t != [] && (t[0] == '-' || t[0] == '+') then t[1..] else t)
  }

  /** `Overrun`: a byte behind the block is read. */
  datatype Outcome = Number(n: int) | Overrun

  /** What a scan for the name over the whole block comes to. */
  function ScanBlock(buf: string, name: string): Outcome {
    var k := FirstMatch(buf, name, 0);
    if k == |buf| || BehindAtoi(buf[k + |name|..]) == [] then Overrun else Number(Atoi(buf[k + |name|..]))
  }

  datatype Comparison = Equal | Different | Outside

  /** Compares up to the first difference. The name holds no zero, so a zero ends it. */
  method Compare(name: string, buf: string, i: nat) returns (c: Comparison)
    requires i <= |buf|
    ensures c == Equal <==> i + |name| <= |buf| && buf[i..i + |name|] == name
    ensures c == Outside <==> i + |name| > |buf| && buf[i..] == name[..|buf| - i]
  {
    var k := 0;
    while k < |name|
      invariant 0 <= k <= |name| && i + k <= |buf| && buf[i..i + k] == name[..k]
    {
      if i + k >= |buf| {
        assert buf[i..i + k] == buf[i..];
        return Outside;
      }
      if buf[i + k] != name[k] {
        Differs(name, buf, i, k);
        return Different;
      }
      assert buf[i..i + k + 1] == buf[i..i + k] + [buf[i + k]];
      assert name[..k + 1] == name[..k] + [name[k]];
      k := k + 1;
    }
    assert name[..k] == name;
    c := Equal;
  }

  lemma Differs(name: string, buf: string, i: nat, k: nat)
    requires k < |name| && i + k < |buf| && buf[i + k] != name[k]
    ensures i + |name| <= |buf| ==> buf[i..i + |name|] != name
    ensures i + |name| > |buf| ==> buf[i..] != name[..|buf| - i]
  {
    if i + |name| <= |buf| {
      assert buf[i..i + |name|][k] == buf[i + k];
    } else {
      assert buf[i..][k] == buf[i + k];
    }
  }

  /** The loop of the lookup. Its bound is an unsigned difference: with a name longer than the
      text it wraps around, and the scan goes on behind the text over the whole block. The
      name and the block both lie in the 32-bit address space. */
  method Lookup(buf: string, name: string) returns (r: Outcome)
    requires |buf| == BLOCK_SIZE && '\0' in buf && '\0' !in name && |name| + BLOCK_SIZE < WORD_LIMIT
    ensures |name| <= Strlen(buf) ==> r == Number(Search(buf[..Strlen(buf)], name, 0))
    ensures |name| > Strlen(buf) ==> r == ScanBlock(buf, name)
  {
    hide Match, Search, ScanBlock, Strlen, Atoi, BehindAtoi, FirstMatch;
    var namelen, len := |name|, Strlen(buf);
    var bound := (len + WORD_LIMIT - namelen) % WORD_LIMIT;
    Wrapped(len, namelen);
    var i := 0;
    while i < bound
      invariant 0 <= i <= bound && i <= |buf|
      invariant forall k :: 0 <= k < i ==> !Match(buf, name, k)
    {
      var c := Compare(name, buf, i);
      AtPosition(buf, name, i);
      if c == Outside || (c == Equal && i + namelen == |buf|) {
        NoneLeft(buf, name, i);
        return Overrun;
      }
      if c == Equal && buf[i + namelen] == ' ' && (i == 0 || buf[i - 1] == ' ') {
        var rest := buf[i + namelen..];
        FoundFirst(buf, name, i);
        if namelen <= len { FoundInText(buf, name, i); }
        if BehindAtoi(rest) == [] { return Overrun; }
        return Number(Atoi(rest));
      }
      i := i + 1;
    }
    NotInText(buf, name, bound);
    r := Number(-1);
  }

  lemma Wrapped(len: nat, namelen: nat)
    requires len < BLOCK_SIZE && namelen + BLOCK_SIZE < WORD_LIMIT
    ensures var bound := (len + WORD_LIMIT - namelen) % WORD_LIMIT;
      if namelen <= len then bound == len - namelen else bound > BLOCK_SIZE
  {
  }

  lemma AtPosition(buf: string, name: string, i: nat)
    requires i <= |buf|
    ensures Match(buf, name, i) <==>
      && i + |name| < |buf| && buf[i..i + |name|] == name && buf[i + |name|] == ' '
      && (i == 0 || buf[i - 1] == ' ')
  {
  }

  lemma NoneLeft(buf: string, name: string, i: nat)
    requires i + |name| >= |buf| && forall k :: 0 <= k < i ==> !Match(buf, name, k)
    ensures ScanBlock(buf, name) == Overrun
  {
    assert forall k: nat :: !Match(buf, name, k);
  }

  lemma FoundFirst(buf: string, name: string, i: nat)
    requires i < |buf| && Match(buf, name, i) && forall k :: 0 <= k < i ==> !Match(buf, name, k)
    ensures ScanBlock(buf, name) ==
      if BehindAtoi(buf[i + |name|..]) == [] then Overrun else Number(Atoi(buf[i + |name|..]))
  {
    hide Atoi, BehindAtoi, Match;
    assert FirstMatch(buf, name, 0) == i;
  }

  /** Up to the end of the text, matches in the block are matches in the text. */
  lemma TextMatch(buf: string, len: nat, name: string, k: nat)
    requires len <= |buf| && k + |name| < len
    ensures Match(buf[..len], name, k) <==> Match(buf, name, k)
  {
    assert buf[..len][k..k + |name|] == buf[k..k + |name|];
  }

  lemma FoundInText(buf: string, name: string, i: nat)
    requires '\0' in buf && |name| <= Strlen(buf) && i < Strlen(buf) - |name|
    requires Match(buf, name, i) && forall k :: 0 <= k < i ==> !Match(buf, name, k)
    ensures BehindAtoi(buf[i + |name|..]) != []
    ensures Search(buf[..Strlen(buf)], name, 0) == Atoi(buf[i + |name|..])
  {
    hide Atoi, BehindAtoi, Match, Strlen;
    var len, j := Strlen(buf), i + |name|;
    var text := buf[..len];
    forall k | 0 <= k <= i ensures Match(text, name, k) <==> Match(buf, name, k) {
      TextMatch(buf, len, name, k);
    }
    SkipAhead(text, name, 0, i);
    assert buf[j..] == text[j..] + buf[len..];
    AtoiStops(text[j..], buf[len..]);
  }

  lemma NotInText(buf: string, name: string, bound: nat)
    requires '\0' in buf && |name| <= Strlen(buf) && bound == Strlen(buf) - |name|
    requires forall k :: 0 <= k < bound ==> !Match(buf, name, k)
    ensures Search(buf[..Strlen(buf)], name, 0) == -1
  {
    hide Atoi, Match, Strlen;
    var text := buf[..Strlen(buf)];
    forall k | 0 <= k < bound ensures !Match(text, name, k) {
      TextMatch(buf, Strlen(buf), name, k);
    }
    SkipAhead(text, name, 0, bound);
  }

  /** A character that is no digit, sign or blank ends what atoi reads. */
  predicate Stopper(c: char) { !IsDigit(c) && !IsSpace(c) && c != '-' && c != '+' }

  lemma {:induction false} SpacesStop(s: string, t: string)
    requires t != [] && !IsSpace(t[0])
    ensures SkipSpaces(s + t) == SkipSpaces(s) + t
  {
    if s == [] {
      assert s + t == t;
    } else {
      assert (s + t)[1..] == s[1..] + t;
      if IsSpace(s[0]) { SpacesStop(s[1..], t); }
    }
  }

  lemma {:induction false} DigitsStop(s: string, t: string, acc: nat)
    requires t != [] && !IsDigit(t[0])
    ensures ParseDigits(s + t, acc) == ParseDigits(s, acc) && BehindDigits(s + t) != []
    decreases s
  {
    if s == [] {
      assert s + t == t;
    } else {
      assert (s + t)[1..] == s[1..] + t;
      if IsDigit(s[0]) { DigitsStop(s[1..], t, 10 * acc + (s[0] as int - '0' as int)); }
    }
  }

  lemma AtoiStops(s: string, t: string)
    requires t != [] && Stopper(t[0])
    ensures Atoi(s + t) == Atoi(s) && BehindAtoi(s + t) != []
  {
    SpacesStop(s, t);
    var u := SkipSpaces(s);
    if u == [] {
      assert u + t == t;
      DigitsStop([], t, 0);
      assert [] + t == t;
    } else {
      assert (u + t)[1..] == u[1..] + t;
      DigitsStop(u[1..], t, 0);
      DigitsStop(u, t, 0);
    }
  }

  /** If only zeros follow the text, as in a padded block, a longer name always overruns. */
  lemma PaddedOverrun(buf: string, name: string)
    requires '\0' in buf && |name| > Strlen(buf) && forall k :: Strlen(buf) <= k < |buf| ==> buf[k] == '\0'
    ensures ScanBlock(buf, name) == Overrun
  {
    hide Strlen, Atoi, BehindAtoi;
    assert forall k: nat :: !Match(buf, name, k);
  }

  /** Otherwise a longer name can be found behind the text. */
  lemma BehindText()
    ensures var buf := "ab\0 longname 5" + seq(BLOCK_SIZE - 14, i => '\0');
      |buf| == BLOCK_SIZE && Strlen(buf) == 2 && ScanBlock(buf, "longname") == Number(5)
  {
    hide Atoi, BehindAtoi;
    var name, pad := "longname", seq(BLOCK_SIZE - 14, i => '\0');
    var buf := "ab\0 longname 5" + pad;
    assert buf[2] == '\0' && buf[..2] == "ab";
    StrlenIs(buf, 2);
    assert buf[4..12] == name && Match(buf, name, 4);
    assert forall k :: 0 <= k < 4 ==> !Match(buf, name, k) by {
      assert buf[0..8][0] == 'a' && buf[1..9][0] == 'b' && buf[2..10][0] == '\0' && buf[3..11][0] == ' ';
    }
    FoundFirst(buf, name, 4);
    assert buf[12..] == " 5" + pad;
    AtoiStops(" 5", pad);
    assert Atoi(" 5") == 5 by { SpaceFive(); }
  }

  lemma SpaceFive()
    ensures Atoi(" 5") == 5
  {
    assert " 5"[1..] == "5" && "5"[1..] == "";
  }

  lemma StrlenIs(buf: string, n: nat)
    requires n < |buf| && buf[n] == '\0' && '\0' !in buf[..n]
    ensures Strlen(buf) == n
  {
    var m := Strlen(buf);
    assert forall k :: 0 <= k < n ==> buf[..n][k] == buf[k] != '\0';
    assert forall k :: 0 <= k < m ==> buf[..m][k] == buf[k] != '\0';
  }

  // ----- The round trip

  /** A name a directory can hold. */
  predicate Plain(name: string) { name != [] && ' ' !in name }

  predicate Listable(e: Entry) { Plain(e.name) && e.ino <= 999 }

  /** The number of the first entry of that name, or -1. */
  function Find(entries: seq<Entry>, name: string): int {
    if entries == [] then -1 else if entries[0].name == name then entries[0].ino else Find(entries[1..], name)
  }

  lemma {:induction false} ParsePrinted(n: nat, t: string)
    ensures ParseDigits(Digits(n) + t, 0) == ParseDigits(t, n)
  {
    if n < 10 {
      assert (Digits(n) + t)[1..] == t;
    } else {
      var c := DigitChar(n % 10);
      assert Digits(n) + t == Digits(n / 10) + ([c] + t);
      ParsePrinted(n / 10, [c] + t);
      assert ([c] + t)[1..] == t;
    }
  }

  lemma {:induction false} SkipPadding(k: nat, t: string)
    requires t != [] && !IsSpace(t[0])
    ensures SkipSpaces(Spaces(k) + t) == t
  {
    if k == 0 {
      assert Spaces(0) + t == t;
    } else {
      assert (Spaces(k) + t)[1..] == Spaces(k - 1) + t;
      SkipPadding(k - 1, t);
    }
  }

  lemma DigitCount(n: nat)
    requires n <= 999
    ensures |Digits(n)| <= 3
  {
    if n >= 10 { TwoDigits(n / 10); }
  }

  lemma TwoDigits(m: nat)
    requires m < 100
    ensures |Digits(m)| <= 2
  {
    if m >= 10 { assert |Digits(m / 10)| == 1; }
  }

  /** What atoi reads from a printed column is the number. */
  lemma AtoiColumn(n: nat, t: string)
    requires n <= 999
    ensures Atoi(Column(n) + " " + t) == n
  {
    DigitCount(n);
    var d := Digits(n);
    var rest := d + (" " + t);
    assert Column(n) + " " + t == Spaces(4 - |d|) + rest;
    assert rest[0] == d[0];
    SkipPadding(4 - |d|, rest);
    ParsePrinted(n, " " + t);
  }

  lemma {:induction false} SkipAhead(text: string, name: string, i: nat, j: nat)
    requires i <= j && forall k :: i <= k < j ==> !Match(text, name, k)
    ensures Search(text, name, i) == Search(text, name, j)
    decreases j - i
  {
    if i < j { SkipAhead(text, name, i + 1, j); }
  }

  /** The result of the scan of a text: -1 if the name stands nowhere in it with a space on
      each side, or at the start with one behind it; otherwise what atoi reads behind the
      first such place. */
  lemma SearchMeans(text: string, name: string, k: nat)
    requires forall j :: 0 <= j < k ==> !Match(text, name, j)
    ensures k + |name| >= |text| ==> Search(text, name, 0) == -1
    ensures Match(text, name, k) ==> Search(text, name, 0) == Atoi(text[k + |name|..])
  {
    hide Atoi;
    SkipAhead(text, name, 0, k);
  }

  /** Atoi skips blanks, takes one sign and the digits that follow, and stops there; without
      digits it gives 0. What it leaves unread is the rest. */
  lemma AtoiMeans(blanks: string, n: nat, rest: string)
    requires AllSpace(blanks) && (rest == [] || !IsDigit(rest[0]))
    ensures Atoi(blanks + (Digits(n) + rest)) == Atoi(blanks + ("+" + (Digits(n) + rest))) == n
    ensures Atoi(blanks + ("-" + (Digits(n) + rest))) == 0 - n
    ensures rest == [] || Stopper(rest[0]) ==> Atoi(blanks + rest) == 0 && BehindAtoi(blanks + rest) == rest
    ensures BehindAtoi(blanks + (Digits(n) + rest)) == rest && BehindAtoi(blanks + ("+" + (Digits(n) + rest))) == rest
    ensures BehindAtoi(blanks + ("-" + (Digits(n) + rest))) == rest
  {
    hide Digits, ParseDigits, BehindDigits;
    var s := Digits(n) + rest;
    assert s[0] == Digits(n)[0];
    NumberRead(n, rest);
    DigitsRead(Digits(n), rest);
    BlanksSkipped(blanks, s);
    BlanksSkipped(blanks, "+" + s);
    BlanksSkipped(blanks, "-" + s);
    assert ("+" + s)[1..] == s && ("-" + s)[1..] == s;
    if rest == [] || Stopper(rest[0]) {
      BlanksSkipped(blanks, rest);
      NoNumber(rest);
    }
  }

  lemma {:induction false} BlanksSkipped(blanks: string, t: string)
    requires AllSpace(blanks) && (t == [] || !IsSpace(t[0]))
    ensures SkipSpaces(blanks + t) == t
  {
    if blanks == [] {
      assert blanks + t == t;
    } else {
      assert (blanks + t)[1..] == blanks[1..] + t;
      BlanksSkipped(blanks[1..], t);
    }
  }

  lemma NoNumber(t: string)
    requires t == [] || !IsDigit(t[0])
    ensures ParseDigits(t, 0) == 0 && BehindDigits(t) == t
  {
  }

  lemma {:induction false} DigitsRead(s: string, rest: string)
    requires (rest == [] || !IsDigit(rest[0])) && forall k :: 0 <= k < |s| ==> IsDigit(s[k])
    ensures BehindDigits(s + rest) == rest
  {
    if s == [] {
      assert s + rest == rest;
    } else {
      assert (s + rest)[1..] == s[1..] + rest;
      DigitsRead(s[1..], rest);
    }
  }

  lemma NumberRead(n: nat, rest: string)
    requires rest == [] || !IsDigit(rest[0])
    ensures ParseDigits(Digits(n) + rest, 0) == n
  {
    ParsePrinted(n, rest);
  }

  /** Where the first space of a text is, the first word ends. */
  lemma FirstSpace(text: string, a: string, b: string, k: nat)
    requires Plain(a) && Plain(b) && k + |a| < |text| && k + |b| < |text|
    requires text[k..k + |a|] == a && text[k + |a|] == ' ' && text[k..k + |b|] == b && text[k + |b|] == ' '
    ensures |a| <= |b|
  {
    assert forall j :: 0 <= j < |a| ==> text[k + j] == a[j];
    assert forall j :: 0 <= j < |a| ==> a[j] != ' ';
  }

  /** A word between spaces is matched by itself only. */
  lemma TokenMatch(text: string, word: string, name: string, k: nat)
    requires Plain(word) && Plain(name) && k + |word| < |text| && text[k..k + |word|] == word
    requires text[k + |word|] == ' ' && (k == 0 || text[k - 1] == ' ')
    ensures Match(text, name, k) <==> name == word
  {
    if Match(text, name, k) {
      FirstSpace(text, word, name, k);
      FirstSpace(text, name, word, k);
    }
  }

  /** The column where the number of an entry starts. */
  function NumberAt(e: Entry): int { |e.name| + 4 - |Digits(e.ino)| }

  lemma LineShape(e: Entry)
    requires Listable(e)
    ensures var line, m, d := Line(e), NumberAt(e), Digits(e.ino);
      && |line| == |e.name| + 5 && |e.name| < m && m + |d| == |line| - 1
      && line[..|e.name|] == e.name && line[m..m + |d|] == d
      && forall j :: |e.name| <= j < m || j == |line| - 1 ==> line[j] == ' '
  {
    hide Digits;
    DigitCount(e.ino);
    var d := Digits(e.ino);
    assert Line(e) == e.name + Spaces(4 - |d|) + d + " ";
  }

  /** Behind another character than a space, or on a space, nothing matches. */
  lemma NoMatch(text: string, name: string, k: nat)
    requires Plain(name) && k < |text| && (text[k] == ' ' || (k > 0 && text[k - 1] != ' '))
    ensures !Match(text, name, k)
  {
  }

  /** A word of a line is a word of the text that holds the line. */
  lemma Within(text: string, at: nat, line: string, i: nat, word: string)
    requires at + |line| <= |text| && text[at..at + |line|] == line
    requires i + |word| <= |line| && line[i..i + |word|] == word
    ensures text[at + i..at + i + |word|] == word
  {
    forall j | 0 <= j < |word| ensures text[at + i + j] == word[j] {
      assert text[at..at + |line|][i + j] == line[i + j];
      assert line[i..i + |word|][j] == word[j];
    }
  }

  /** In a line only the name and the number can match. */
  lemma LineMatches(text: string, at: nat, e: Entry, name: string, k: nat)
    requires Listable(e) && Plain(name)
    requires at + |Line(e)| <= |text| && text[at..at + |Line(e)|] == Line(e) && (at == 0 || text[at - 1] == ' ')
    requires at <= k < at + |Line(e)|
    ensures Match(text, name, k) <==>
      (k == at && name == e.name) || (k == at + NumberAt(e) && name == Digits(e.ino))
  {
    hide Digits, Line, Match, NumberAt;
    LineShape(e);
    var line, d := Line(e), Digits(e.ino);
    var m, i := NumberAt(e), k - at;
    assert text[k] == line[i];
    assert i > 0 ==> text[k - 1] == line[i - 1];
    if i == 0 {
      Within(text, at, line, 0, e.name);
      assert text[k + |e.name|] == line[|e.name|];
      TokenMatch(text, e.name, name, k);
    } else if i == m {
      Within(text, at, line, m, d);
      assert text[k + |d|] == line[m + |d|];
      TokenMatch(text, d, name, k);
    } else if i < |e.name| {
      assert line[i - 1] == e.name[i - 1];
      NoMatch(text, name, k);
    } else if m < i < m + |d| {
      assert line[i - 1] == d[i - 1 - m];
      NoMatch(text, name, k);
    } else {
      NoMatch(text, name, k);
    }
  }

  /** What a lookup in a printed directory comes to. A number that looks like the name, if
      it stands before the entry, is taken for it. */
  function Result(entries: seq<Entry>, name: string): int {
    if entries == [] then -1
    else if entries[0].name == name then entries[0].ino
    else if Digits(entries[0].ino) == name then Atoi(" " + Print(entries[1..]))
    else Result(entries[1..], name)
  }

  lemma {:induction false} SearchPrinted(pre: string, entries: seq<Entry>, name: string)
    requires pre == [] || pre[|pre| - 1] == ' '
    requires Plain(name) && forall e :: e in entries ==> Listable(e)
    ensures Search(pre + Print(entries), name, |pre|) == Result(entries, name)
    decreases entries
  {
    hide Line, Atoi, Match, Digits, NumberAt;
    var text := pre + Print(entries);
    if entries != [] {
      var e, line, rest := entries[0], Line(entries[0]), Print(entries[1..]);
      assert e in entries;
      assert text == (pre + line) + rest;
      LineShape(e);
      assert (pre + line)[|pre + line| - 1] == ' ';
      SearchPrinted(pre + line, entries[1..], name);
      SearchLine(pre, e, rest, name);
    }
  }

  /** The search through one line. */
  lemma SearchLine(pre: string, e: Entry, rest: string, name: string)
    requires Listable(e) && Plain(name) && (pre == [] || pre[|pre| - 1] == ' ')
    ensures Search(pre + Line(e) + rest, name, |pre|) ==
      if e.name == name then e.ino
      else if Digits(e.ino) == name then Atoi(" " + rest)
      else Search(pre + Line(e) + rest, name, |pre + Line(e)|)
  {
    hide Atoi, Digits, Match, NumberAt, Line;
    var line := Line(e);
    var text := pre + line + rest;
    var m := NumberAt(e);
    LineShape(e);
    assert text[|pre|..|pre| + |line|] == line;
    assert pre != [] ==> text[|pre| - 1] == ' ';
    forall k | |pre| <= k < |pre| + |line|
      ensures Match(text, name, k) <==>
        (k == |pre| && name == e.name) || (k == |pre| + m && name == Digits(e.ino))
    {
      LineMatches(text, |pre|, e, name, k);
    }
    if e.name == name {
      BehindName(pre, e, rest);
    } else if Digits(e.ino) == name {
      SkipAhead(text, name, |pre|, |pre| + m);
      BehindNumber(pre, e, rest);
    } else {
      SkipAhead(text, name, |pre|, |pre| + |line|);
    }
  }

  lemma BehindName(pre: string, e: Entry, rest: string)
    requires Listable(e)
    ensures |pre| + |e.name| < |pre + Line(e) + rest|
    ensures Atoi((pre + Line(e) + rest)[|pre| + |e.name|..]) == e.ino
  {
    hide Atoi, Digits;
    LineShape(e);
    assert (pre + Line(e) + rest)[|pre| + |e.name|..] == Column(e.ino) + " " + rest;
    AtoiColumn(e.ino, rest);
  }

  lemma BehindNumber(pre: string, e: Entry, rest: string)
    requires Listable(e)
    ensures var i := |pre| + NumberAt(e) + |Digits(e.ino)|;
      0 <= i < |pre + Line(e) + rest| && (pre + Line(e) + rest)[i..] == " " + rest
  {
    hide Line;
    LineShape(e);
  }

  /** No number printed before the first entry of that name looks like the name. */
  predicate Clear(entries: seq<Entry>, name: string) {
    entries == [] || entries[0].name == name || (Digits(entries[0].ino) != name && Clear(entries[1..], name))
  }

  predicate AllSpace(name: string) { forall k :: 0 <= k < |name| ==> IsSpace(name[k]) }

  /** What atoi makes of a line: of its name, or of its number if the name is all blanks. */
  function Heard(e: Entry): int { if AllSpace(e.name) then e.ino else Atoi(e.name) }

  /** The number heard behind the first number that looks like the name. */
  function Stray(entries: seq<Entry>, name: string): int {
    if entries == [] then 0
    else if Digits(entries[0].ino) != name then Stray(entries[1..], name)
    else if |entries| == 1 then 0
    else Heard(entries[1])
  }

  lemma {:induction false} SkipAllSpace(s: string, t: string)
    ensures AllSpace(s) ==> SkipSpaces(s + t) == SkipSpaces(t)
    ensures !AllSpace(s) ==> SkipSpaces(s) != [] && SkipSpaces(s + t) == SkipSpaces(s) + t
  {
    if s == [] {
      assert s + t == t;
    } else {
      assert (s + t)[1..] == s[1..] + t;
      assert s == [s[0]] + s[1..];
      if IsSpace(s[0]) {
        SkipAllSpace(s[1..], t);
        assert AllSpace(s) <==> AllSpace(s[1..]) by { AllSpaceTail(s); }
      }
    }
  }

  lemma AllSpaceTail(s: string)
    requires s != [] && IsSpace(s[0])
    ensures AllSpace(s) <==> AllSpace(s[1..])
  {
    if AllSpace(s[1..]) {
      forall k | 0 <= k < |s| ensures IsSpace(s[k]) {
        if k > 0 { assert s[k] == s[1..][k - 1]; }
      }
    }
  }

  /** Atoi of a printed line behind a blank is what the line is heard as. */
  lemma HeardLine(e: Entry, rest: string)
    requires Listable(e)
    ensures Atoi(" " + (Line(e) + rest)) == Heard(e)
  {
    hide Digits, Atoi;
    var t := Column(e.ino) + " " + rest;
    LineShape(e);
    assert t[0] == ' ' by { DigitCount(e.ino); }
    assert Line(e) + rest == e.name + t;
    assert " " + (Line(e) + rest) == [' '] + (e.name + t);
    AtoiWord(e.name, t);
    if AllSpace(e.name) { AtoiColumn(e.ino, rest); }
  }

  /** What atoi makes of a word between spaces. */
  lemma AtoiWord(name: string, t: string)
    requires t != [] && t[0] == ' '
    ensures Atoi([' '] + (name + t)) == if AllSpace(name) then Atoi(t) else Atoi(name)
  {
    assert ([' '] + (name + t))[1..] == name + t;
    SkipAllSpace(name, t);
    if !AllSpace(name) {
      var u := SkipSpaces(name);
      assert (u + t)[1..] == u[1..] + t;
      DigitsStop(u[1..], t, 0);
      DigitsStop(u, t, 0);
    }
  }

  /** The whole result: the entry's number if the way to it is clear, else the stray number. */
  lemma {:induction false} ResultCases(entries: seq<Entry>, name: string)
    requires forall e :: e in entries ==> Listable(e)
    ensures Result(entries, name) == if Clear(entries, name) then Find(entries, name) else Stray(entries, name)
  {
    hide Digits, Atoi, Heard, Line;
    if entries != [] && entries[0].name != name {
      var tail := entries[1..];
      if Digits(entries[0].ino) != name {
        ResultCases(tail, name);
      } else if tail == [] {
        assert Atoi(" " + Print(tail)) == 0 by { AtoiBlank(); }
      } else {
        assert tail[0] in entries;
        HeardLine(tail[0], Print(tail[1..]));
      }
    }
  }

  lemma AtoiBlank()
    ensures Atoi(" " + "") == 0
  {
    assert " " + "" == Spaces(1) + "";
    var s := Spaces(1) + "";
    assert s[1..] == "";
    assert SkipSpaces(s) == "";
  }

  /** A lookup finds what it should if and only if no number before the entry looks like the
      name, or the number heard behind it happens to be the right one. */
  lemma LookupExact(entries: seq<Entry>, name: string)
    requires Plain(name) && forall e :: e in entries ==> Listable(e)
    ensures Search(Print(entries), name, 0) ==
      if Clear(entries, name) then Find(entries, name) else Stray(entries, name)
    ensures Search(Print(entries), name, 0) == Find(entries, name) <==>
      Clear(entries, name) || Stray(entries, name) == Find(entries, name)
  {
    hide Search, Print, Find, Result, Clear, Stray;
    ResultCases(entries, name);
    SearchPrinted("", entries, name);
    assert "" + Print(entries) == Print(entries);
  }

  /** A name as the image tool has them: no digit, sign or blank in front. */
  predicate Ordinary(name: string) { name != [] && Stopper(name[0]) }

  /** In a directory of such names a lookup finds what it should if and only if no number
      before the entry looks like the name; otherwise it gives 0 for a name that is absent. */
  lemma OrdinaryExact(entries: seq<Entry>, name: string)
    requires Plain(name) && forall e :: e in entries ==> Listable(e) && Ordinary(e.name)
    ensures Search(Print(entries), name, 0) == Find(entries, name) <==> Clear(entries, name)
    ensures !Clear(entries, name) ==> Search(Print(entries), name, 0) == 0 && Find(entries, name) == -1
  {
    hide Search, Print;
    LookupExact(entries, name);
    if !Clear(entries, name) { StrayOrdinary(entries, name); }
  }

  lemma {:induction false} StrayOrdinary(entries: seq<Entry>, name: string)
    requires !Clear(entries, name) && forall e :: e in entries ==> Listable(e) && Ordinary(e.name)
    ensures Stray(entries, name) == 0 && Find(entries, name) == -1 && name != [] && IsDigit(name[0])
  {
    hide Atoi, Digits;
    var tail := entries[1..];
    if Digits(entries[0].ino) != name {
      StrayOrdinary(tail, name);
    } else {
      FindNone(entries, name);
      if |entries| > 1 {
        assert entries[1] in entries;
        AtoiStopper(entries[1].name);
      }
    }
  }

  lemma AtoiStopper(s: string)
    requires s != [] && Stopper(s[0])
    ensures Atoi(s) == 0 && !AllSpace(s)
  {
  }

  predicate AllDigits(name: string) { forall k :: 0 <= k < |name| ==> IsDigit(name[k]) }

  lemma {:induction false} WordIsClear(entries: seq<Entry>, name: string)
    requires !AllDigits(name)
    ensures Clear(entries, name)
  {
    if entries != [] {
      assert Digits(entries[0].ino) != name;
      WordIsClear(entries[1..], name);
    }
  }

  /** Every entry is found again, and a name that is not there is reported as missing. */
  lemma RoundTrip(entries: seq<Entry>, name: string)
    requires forall e :: e in entries ==> Listable(e)
    requires Plain(name) && !AllDigits(name)
    ensures Search(Print(entries), name, 0) == Find(entries, name)
  {
    hide Search, Print, Find, Stray;
    WordIsClear(entries, name);
    LookupExact(entries, name);
  }

  /** The same for the block that the lookup reads: the printed text, ended by a zero. */
  lemma BlockRoundTrip(entries: seq<Entry>, buf: string, name: string)
    requires forall e :: e in entries ==> Listable(e) && '\0' !in e.name
    requires |Print(entries)| < |buf| && buf[..|Print(entries)|] == Print(entries) && buf[|Print(entries)|] == '\0'
    requires Plain(name) && !AllDigits(name)
    ensures Strlen(buf) == |Print(entries)| && Search(buf[..Strlen(buf)], name, 0) == Find(entries, name)
  {
    hide Search, Find, Print;
    PrintedClean(entries);
    StrlenIs(buf, |Print(entries)|);
    RoundTrip(entries, name);
  }

  lemma {:induction false} PrintedClean(entries: seq<Entry>)
    requires forall e :: e in entries ==> '\0' !in e.name
    ensures '\0' !in Print(entries)
  {
    if entries != [] {
      PrintedClean(entries[1..]);
      assert entries[0] in entries;
      ColumnClean(entries[0].ino);
    }
  }

  lemma ColumnClean(n: nat)
    ensures '\0' !in Column(n)
  {
    hide Digits;
    assert forall k :: 0 <= k < |Digits(n)| ==> Digits(n)[k] != '\0';
  }

  /** A directory file for the lookup to read: the text, then zeros. */
  method LookupPrinted(entries: seq<Entry>, name: string) returns (r: Outcome)
    requires forall e :: e in entries ==> Listable(e) && '\0' !in e.name
    requires |Print(entries)| < BLOCK_SIZE && Plain(name) && !AllDigits(name) && '\0' !in name
    requires |name| + BLOCK_SIZE < WORD_LIMIT
    ensures r == if |name| <= |Print(entries)| then Number(Find(entries, name)) else Overrun
  {
    hide Search, Find, Print, ScanBlock, Strlen;
    var text := Print(entries);
    var buf := text + seq(BLOCK_SIZE - |text|, i => '\0');
    assert buf[..|text|] == text;
    assert buf[|text|] == '\0';
    BlockRoundTrip(entries, buf, name);
    if |name| > |text| { PaddedOverrun(buf, name); }
    r := Lookup(buf, name);
  }

  /** With distinct names, entry k is the one found under its name. */
  lemma {:induction false} FindEntry(entries: seq<Entry>, k: nat)
    requires k < |entries| && forall i, j :: 0 <= i < j < |entries| ==> entries[i].name != entries[j].name
    ensures Find(entries, entries[k].name) == entries[k].ino
  {
    if k > 0 { FindEntry(entries[1..], k - 1); }
  }

  lemma {:induction false} FindNone(entries: seq<Entry>, name: string)
    ensures Find(entries, name) == -1 <==> forall e :: e in entries ==> e.name != name
  {
    if entries != [] { FindNone(entries[1..], name); }
  }

  /** A name made of digits can be taken for a number: behind an entry with number 5, the
      entry named 5 is not found. */
  lemma DigitName()
    ensures var entries := [Entry("a", 5), Entry("5", 7)];
      Find(entries, "5") == 7 && Search(Print(entries), "5", 0) == 5
  {
    hide Search, Print;
    var e, f := Entry("a", 5), Entry("5", 7);
    assert [e, f][1..] == [f];
    assert Digits(5) == "5" && Atoi("5") == 5 && !AllSpace("5") by { assert "5"[0] == '5' && "5"[1..] == ""; }
    LookupExact([e, f], "5");
  }
}
