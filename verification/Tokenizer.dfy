/** The shell's split of a command line into arguments. */
module Tokenizer {
  import opened Basics

  // ----- The words of a line

  /** The characters up to the first space. */
  function Word(text: string): (w: string)
    ensures w <= text && ' ' !in w && (w == text || text[|w|] == ' ')
  {
    if text == [] || text[0] == ' ' then [] else [text[0]] + Word(text[1..])
  }

  /** The maximal runs of characters other than space, in order. */
  function Runs(text: string): (r: seq<string>)
    ensures forall w :: w in r ==> w != [] && ' ' !in w
    decreases text
  {
    if text == [] then []
    else if text[0] == ' ' then Runs(text[1..])
    else [Word(text)] + Runs(text[|Word(text)|..])
  }

  /** The lines the parser takes. */
  predicate Fits(text: string) {
    && (forall w :: w in Runs(text) ==> |w| < CMD_ARG_LEN)
    && (|Runs(text)| < CMD_NARGS || (|Runs(text)| == CMD_NARGS && text[|text| - 1] != ' '))
  }

  /** Row k of the table holds the word, ended by zeros. */
  ghost predicate RowIs(argv: array2<char>, k: nat, w: string)
    requires argv.Length0 == CMD_NARGS && argv.Length1 == CMD_ARG_LEN && k < CMD_NARGS
    reads argv
  {
    && |w| < CMD_ARG_LEN
    && forall j :: 0 <= j < CMD_ARG_LEN ==> argv[k, j] == if j < |w| then w[j] else '\0'
  }

  /** Row k when the words are `words`. */
  function Nth(words: seq<string>, k: nat): string { if k < |words| then words[k] else "" }

  /** The table holds the words, one to a row, and zeros in all other rows. */
  ghost predicate Holds(argv: array2<char>, words: seq<string>)
    requires argv.Length0 == CMD_NARGS && argv.Length1 == CMD_ARG_LEN
    reads argv
  {
    forall k: nat :: k < CMD_NARGS ==> RowIs(argv, k, Nth(words, k))
  }

  /** Adds a character to the word being read, the last one. */
  method Put(argv: array2<char>, nargs: nat, idx: nat, c: char, ghost done: seq<string>, ghost cur: string)
    requires argv.Length0 == CMD_NARGS && argv.Length1 == CMD_ARG_LEN
    requires nargs == |done| < CMD_NARGS && idx == |cur| < CMD_ARG_LEN && Holds(argv, done + [cur])
    modifies argv
    ensures |cur| + 1 < CMD_ARG_LEN ==> Holds(argv, done + [cur + [c]])
  {
    assert RowIs(argv, nargs, Nth(done + [cur], nargs));
    label L: argv[nargs, idx] := c;
    if |cur| + 1 < CMD_ARG_LEN {
      forall k: nat | k < CMD_NARGS ensures RowIs(argv, k, Nth(done + [cur + [c]], k)) {
        if k != nargs { assert old@L(RowIs(argv, k, Nth(done + [cur], k))); }
      }
    }
  }

  /** Ends the word being read. */
  method End(argv: array2<char>, nargs: nat, idx: nat, ghost done: seq<string>, ghost cur: string)
    requires argv.Length0 == CMD_NARGS && argv.Length1 == CMD_ARG_LEN
    requires nargs == |done| < CMD_NARGS && idx == |cur| < CMD_ARG_LEN && Holds(argv, done + [cur])
    modifies argv
    ensures Holds(argv, done + [cur] + [""])
  {
    assert RowIs(argv, nargs, Nth(done + [cur], nargs));
    label L: argv[nargs, idx] := '\0';
    forall k: nat | k < CMD_NARGS ensures RowIs(argv, k, Nth(done + [cur] + [""], k)) {
      assert old@L(RowIs(argv, k, Nth(done + [cur], k)));
    }
  }

  method Clear(argv: array2<char>)
    requires argv.Length0 == CMD_NARGS && argv.Length1 == CMD_ARG_LEN
    modifies argv
    ensures Holds(argv, [""])
  {
    forall k, j | 0 <= k < CMD_NARGS && 0 <= j < CMD_ARG_LEN { argv[k, j] := '\0'; }
  }

  method ParseRequest(text: string, argv: array2<char>) returns (ok: bool, argc: nat)
    requires argv.Length0 == CMD_NARGS && argv.Length1 == CMD_ARG_LEN
    modifies argv
    ensures ok <==>
      && (forall w :: w in Runs(text) ==> |w| < CMD_ARG_LEN)
      && (|Runs(text)| < CMD_NARGS || (|Runs(text)| == CMD_NARGS && text[|text| - 1] != ' '))
    ensures ok ==> argc == |Runs(text)| <= CMD_NARGS
    ensures ok ==> forall k, j :: 0 <= k < CMD_NARGS && 0 <= j < CMD_ARG_LEN ==>
      argv[k, j] == if k < argc && j < |Runs(text)[k]| then Runs(text)[k][j] else '\0'
  {
    hide Runs, Word, Holds, Nth, RowIs;
    Clear(argv);
    var idx, nargs, i := 0, 0, 0;
    ghost var done: seq<string>, cur := [], "";
    argc := 0;
    assert "" + text[0..] == text && done + [cur] == [""];
    while i < |text|
      invariant 0 <= i <= |text| && nargs == |done| < CMD_NARGS && idx == |cur| < CMD_ARG_LEN && ' ' !in cur
      invariant Runs(text) == done + Runs(cur + text[i..])
      invariant idx > 0 ==> i > 0 && text[i - 1] != ' '
      invariant forall w :: w in done ==> |w| < CMD_ARG_LEN
      invariant Holds(argv, done + [cur])
    {
      ghost var rest := text[i + 1..];
      NextChar(text, i, cur);
      if text[i] != ' ' {
        Put(argv, nargs, idx, text[i], done, cur);
        cur := cur + [text[i]];
        idx := idx + 1;
        if idx >= CMD_ARG_LEN {
          TooLong(text, done, cur, rest);
          return false, 0;
        }
      } else if idx != 0 {
        Ended(cur, rest);
        End(argv, nargs, idx, done, cur);
        done, cur := done + [cur], "";
        idx := 0;
        nargs := nargs + 1;
        if nargs >= CMD_NARGS {
          TooMany(text, done, i);
          return false, 0;
        }
      } else {
        Skipped(rest);
      }
      i := i + 1;
    }
    assert text[i..] == "";
    AllRead(text, done, cur);
    HoldsSame(argv, done + [cur], Runs(text));
    HoldsAll(argv, Runs(text));
    argc := if idx != 0 then nargs + 1 else nargs;
    ok := true;
  }

  lemma NextChar(text: string, i: nat, cur: string)
    requires i < |text|
    ensures text[i..] == [text[i]] + text[i + 1..] && cur + text[i..] == (cur + [text[i]]) + text[i + 1..]
  {
  }

  lemma HoldsSame(argv: array2<char>, a: seq<string>, b: seq<string>)
    requires argv.Length0 == CMD_NARGS && argv.Length1 == CMD_ARG_LEN
    requires Holds(argv, a) && forall k: nat :: Nth(b, k) == Nth(a, k)
    ensures Holds(argv, b)
  {
  }

  lemma HoldsAll(argv: array2<char>, words: seq<string>)
    requires argv.Length0 == CMD_NARGS && argv.Length1 == CMD_ARG_LEN && Holds(argv, words)
    ensures forall k, j :: 0 <= k < CMD_NARGS && 0 <= j < CMD_ARG_LEN ==>
      argv[k, j] == if k < |words| && j < |words[k]| then words[k][j] else '\0'
  {
    forall k: nat, j: nat | k < CMD_NARGS && j < CMD_ARG_LEN
      ensures argv[k, j] == if k < |words| && j < |words[k]| then words[k][j] else '\0'
    {
      assert RowIs(argv, k, Nth(words, k));
    }
  }

  // ----- Lemmas about the words

  lemma {:induction false} WordPrefix(cur: string, rest: string)
    requires ' ' !in cur
    ensures Word(cur + rest) == cur + Word(rest)
  {
    if cur == [] {
      assert cur + rest == rest;
    } else {
      assert (cur + rest)[1..] == cur[1..] + rest;
      WordPrefix(cur[1..], rest);
    }
  }

  lemma RunsNext(text: string)
    requires text != [] && text[0] != ' '
    ensures Runs(text) == [Word(text)] + Runs(text[|Word(text)|..])
  {
  }

  lemma Skipped(rest: string)
    ensures Runs("" + ([' '] + rest)) == Runs(rest) == Runs("" + rest)
  {
    assert "" + ([' '] + rest) == [' '] + rest;
    assert ([' '] + rest)[1..] == rest && "" + rest == rest;
  }

  lemma Ended(cur: string, rest: string)
    requires cur != [] && ' ' !in cur
    ensures Runs(cur + ([' '] + rest)) == [cur] + Runs("" + rest)
  {
    hide Runs;
    var more := [' '] + rest;
    WordPrefix(cur, more);
    assert Word(more) == "" && cur + "" == cur;
    RunsNext(cur + more);
    assert (cur + more)[|cur|..] == more;
    Skipped(rest);
    assert "" + more == more;
  }

  lemma AllWord(cur: string)
    requires ' ' !in cur
    ensures Runs(cur + "") == if cur == [] then [] else [cur]
  {
    assert cur + "" == cur;
    WordPrefix(cur, "");
  }

  lemma AllRead(text: string, done: seq<string>, cur: string)
    requires Runs(text) == done + Runs(cur + "") && ' ' !in cur && |done| < CMD_NARGS && |cur| < CMD_ARG_LEN
    requires forall w :: w in done ==> |w| < CMD_ARG_LEN
    requires cur != [] ==> text != [] && text[|text| - 1] != ' '
    ensures Fits(text) && |Runs(text)| == if cur == [] then |done| else |done| + 1
    ensures forall k: nat :: Nth(Runs(text), k) == Nth(done + [cur], k)
  {
    hide Runs;
    AllWord(cur);
    assert Runs(text) == if cur == [] then done else done + [cur];
  }

  lemma TooLong(text: string, done: seq<string>, cur: string, rest: string)
    requires Runs(text) == done + Runs(cur + rest) && |cur| >= CMD_ARG_LEN && ' ' !in cur
    ensures !Fits(text)
  {
    WordPrefix(cur, rest);
    assert Runs(cur + rest)[0] == Word(cur + rest);
    assert Runs(text)[|done|] == Word(cur + rest);
  }

  lemma {:induction false} NoRuns(text: string)
    requires Runs(text) == []
    ensures forall k :: 0 <= k < |text| ==> text[k] == ' '
  {
    if text != [] { NoRuns(text[1..]); }
  }

  lemma TooMany(text: string, done: seq<string>, i: nat)
    requires i < |text| && text[i] == ' ' && Runs(text) == done + Runs("" + text[i + 1..]) && |done| == CMD_NARGS
    ensures !Fits(text)
  {
    hide Runs;
    var rest := text[i + 1..];
    assert "" + rest == rest;
    if Runs(rest) == [] {
      NoRuns(rest);
      assert rest != [] ==> text[|text| - 1] == rest[|rest| - 1];
    }
  }

  /** The words, each ended by one space. */
  function Join(words: seq<string>): string {
    if words == [] then "" else words[0] + ([' '] + Join(words[1..]))
  }

  /** Splitting undoes joining. */
  lemma {:induction false} SplitJoin(words: seq<string>)
    requires forall w :: w in words ==> w != [] && ' ' !in w
    ensures Runs(Join(words)) == words
  {
    if words != [] {
      var rest := Join(words[1..]);
      assert words[0] in words;
      Ended(words[0], rest);
      assert "" + rest == rest;
      SplitJoin(words[1..]);
    }
  }

  /** Splitting a line at any of its spaces: the words are those before it and those after.
      A line without spaces is one word, or none; so this says what the words of any line are. */
  lemma {:induction false} SplitAtSpace(a: string, b: string)
    ensures Runs(a + ([' '] + b)) == Runs(a) + Runs(b)
    ensures ' ' !in a ==> Runs(a) == if a == [] then [] else [a]
    decreases a
  {
    hide Runs, Word;
    if ' ' !in a {
      OneWord(a, b);
    } else if a[0] == ' ' {
      LeadingSpace(a);
      LeadingSpace(a + ([' '] + b));
      assert (a + ([' '] + b))[1..] == a[1..] + ([' '] + b);
      SplitAtSpace(a[1..], b);
    } else {
      FirstWord(a, [' '] + b);
      SplitAtSpace(a[|Word(a)|..], b);
    }
  }

  lemma OneWord(a: string, b: string)
    requires ' ' !in a
    ensures Runs(a) == (if a == [] then [] else [a]) && Runs(a + ([' '] + b)) == Runs(a) + Runs(b)
  {
    hide Runs;
    AllWord(a);
    assert a + "" == a && "" + b == b;
    if a == [] { Skipped(b); } else { Ended(a, b); }
  }

  lemma LeadingSpace(text: string)
    requires text != [] && text[0] == ' '
    ensures Runs(text) == Runs(text[1..])
  {
  }

  /** Text behind a word that a space ends does not matter to the word. */
  lemma FirstWord(a: string, more: string)
    requires ' ' in a && a[0] != ' '
    ensures |Word(a)| > 0 && Runs(a) == [Word(a)] + Runs(a[|Word(a)|..])
    ensures Runs(a + more) == [Word(a)] + Runs(a[|Word(a)|..] + more)
  {
    hide Runs;
    var w, rest := Word(a), a[|Word(a)|..];
    assert a == w + rest && rest[0] == ' ';
    assert a + more == w + (rest + more);
    WordPrefix(w, rest + more);
    assert Word(rest + more) == "" && w + "" == w;
    RunsNext(a);
    RunsNext(a + more);
    assert (a + more)[|w|..] == rest + more;
  }

  /** And joining keeps every character of the line but the spaces. */
  function Letters(text: string): string {
    if text == [] then "" else (if text[0] == ' ' then "" else [text[0]]) + Letters(text[1..])
  }

  function Flat(words: seq<string>): string {
    if words == [] then "" else words[0] + Flat(words[1..])
  }

  lemma {:induction false} LettersAppend(a: string, b: string)
    ensures Letters(a + b) == Letters(a) + Letters(b)
  {
    if a == [] {
      assert a + b == b;
    } else {
      assert (a + b)[1..] == a[1..] + b;
      LettersAppend(a[1..], b);
    }
  }

  lemma {:induction false} LettersWord(w: string)
    requires ' ' !in w
    ensures Letters(w) == w
  {
    if w != [] { LettersWord(w[1..]); }
  }

  lemma {:induction false} NothingLost(text: string)
    ensures Flat(Runs(text)) == Letters(text)
    decreases text
  {
    if text == [] {
    } else if text[0] == ' ' {
      NothingLost(text[1..]);
    } else {
      var w := Word(text);
      assert text == w + text[|w|..];
      LettersAppend(w, text[|w|..]);
      LettersWord(w);
      NothingLost(text[|w|..]);
      assert Runs(text)[1..] == Runs(text[|w|..]);
    }
  }
}
