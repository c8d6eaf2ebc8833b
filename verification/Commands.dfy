/**
 Slash commands (src/commands.c:400-449, 473-526): the index by first letter, and that a
 look-up through it finds what a scan of the whole table would.
 */
module Commands {
  import opened Wrappers
  import opened Text
  import opened Decimal

  /** `struct hx_command`, whose function may be NULL. */
  datatype Command = Command(name: string, runs: bool)

  function Letter(i: nat): char
    requires i < 26
  {
    ('a' as int + i) as char
  }

  predicate IsLetter(c: char) {
    'a' <= c <= 'z'
  }

  /** Names that start with a small letter, in the order of those letters. */
  predicate InOrder(table: seq<Command>) {
    && (forall k | 0 <= k < |table| :: table[k].name != "" && IsLetter(table[k].name[0]))
    && (forall j, k | 0 <= j < k < |table| :: table[j].name[0] <= table[k].name[0])
  }

  /** What is typed, up to white space. */
  function Word(str: string): string {
    var n := Span(str, c => !IsSpaceC(c));
    str[..n]
  }

  predicate Matches(c: Command, word: string) {
    c.runs && word <= c.name
  }

  /** The first entry from `k` on that the word is the start of. */
  function Scan(table: seq<Command>, word: string, k: nat): (r: Option<nat>)
    requires k <= |table|
    ensures r.Some? ==> k <= r.value < |table| && Matches(table[r.value], word)
    ensures forall j | k <= j < (if r.Some? then r.value else |table|) :: !Matches(table[j], word)
    decreases |table| - k
  {
    if k == |table| then None else if Matches(table[k], word) then Some(k) else Scan(table, word, k + 1)
  }

  /** The command a line names: the first in the table that its first word abbreviates. */
  function Meant(table: seq<Command>, str: string): Option<nat> {
    if Word(str) == "" then None else Scan(table, Word(str), 0)
  }

  /** The first entry with a letter, or -1. */
  function Slot(table: seq<Command>, c: char, k: nat): (r: int)
    requires k <= |table| && forall j | k <= j < |table| :: table[j].name != ""
    ensures r == -1 || k <= r < |table|
    ensures r >= 0 ==> table[r].name[0] == c
    ensures forall j | k <= j < (if r >= 0 then r else |table|) :: table[j].name[0] != c
    decreases |table| - k
  {
    if k == |table| then -1 else if table[k].name[0] == c then k else Slot(table, c, k + 1)
  }

  /** The index as it should be. */
  ghost predicate Indexes(hash: seq<int>, table: seq<Command>, upTo: nat)
    requires InOrder(table)
  {
    upTo <= 26 && |hash| == 26 && forall i | 0 <= i < upTo :: hash[i] == Slot(table, Letter(i), 0)
  }

  /** `gen_command_hash`. */
  method GenCommandHash(table: seq<Command>, hash: array<int>)
    requires InOrder(table) && table != [] && hash.Length == 26
    modifies hash
    ensures Indexes(hash[..], table, 26)
  {
    var n, i := 0, 0;
    while i < 26
      invariant i <= 26 && n < |table|
      invariant forall k | 0 <= k < n :: table[k].name[0] < 'a' + i as char
      invariant i < 26 ==> table[n].name[0] >= Letter(i)
      invariant Indexes(hash[..], table, i)
      decreases 26 - i
    {
      if table[n].name[0] == Letter(i) {
        hash[i] := n;
        var more := true;
        while more
          invariant n < |table| && more ==> table[n].name[0] == Letter(i)
          invariant n < |table| && hash[i] == Slot(table, Letter(i), 0)
          invariant forall k | 0 <= k < n :: table[k].name[0] <= Letter(i)
          invariant !more ==> table[n].name[0] > Letter(i)
          invariant Indexes(hash[..], table, i)
          decreases |table| - n, more
        {
          n := n + 1;
          if n == |table| {
            FillRest(table, hash, i + 1);
            return;
          }
          more := table[n].name[0] == Letter(i);
        }
      } else {
        hash[i] := -1;
      }
      i := i + 1;
    }
  }

  /** No entry is left: the remaining letters have none (src/commands.c:438-441). */
  method FillRest(table: seq<Command>, hash: array<int>, from: nat)
    requires InOrder(table) && hash.Length == 26 && from <= 26
    requires Indexes(hash[..], table, from)
    requires forall k | 0 <= k < |table| :: table[k].name[0] as int < 'a' as int + from
    modifies hash
    ensures Indexes(hash[..], table, 26)
  {
    var i := from;
    while i < 26
      invariant from <= i <= 26 && Indexes(hash[..], table, i)
    {
      hash[i] := -1;
      i := i + 1;
    }
  }

  // ---- Looking a command up ----

  /** Entries that do not match are passed over. */
  lemma {:induction false} ScanSkips(table: seq<Command>, word: string, k: nat, m: nat)
    requires k <= m <= |table| && forall j | k <= j < m :: !Matches(table[j], word)
    ensures Scan(table, word, k) == Scan(table, word, m)
    decreases m - k
  {
    if k < m {
      ScanSkips(table, word, k + 1, m);
    }
  }

  /** A name that starts with another letter is not what the word abbreviates. */
  lemma OtherLetter(c: Command, word: string)
    requires word != "" && c.name != "" && c.name[0] != word[0]
    ensures !Matches(c, word)
  {
  }

  lemma NoneElsewhere(table: seq<Command>, word: string, k: nat)
    requires InOrder(table) && word != "" && k <= |table|
    requires forall j | k <= j < |table| :: table[j].name[0] != word[0]
    ensures Scan(table, word, k).None?
  {
    forall j | k <= j < |table| ensures !Matches(table[j], word) {
      OtherLetter(table[j], word);
    }
  }

  lemma WordHead(str: string)
    ensures Word(str) == "" <==> str == "" || IsSpaceC(str[0])
    ensures Word(str) != "" ==> Word(str)[0] == str[0]
  {
  }

  /** The end of the typed word. */
  method WordEnd(str: string) returns (end: nat)
    ensures end <= |str| && str[..end] == Word(str)
  {
    end := 0;
    while end < |str| && !IsSpaceC(str[end])
      invariant end <= |str| && forall i | 0 <= i < end :: !IsSpaceC(str[i])
    {
      end := end + 1;
    }
    SpanOf(str, c => !IsSpaceC(c), end);
  }

  /** The entries of one letter, from its first on (src/commands.c:483-521). */
  method ScanLetter(table: seq<Command>, word: string, first: nat) returns (r: Option<nat>)
    requires InOrder(table) && word != "" && first < |table| && table[first].name[0] == word[0]
    ensures r == Scan(table, word, first)
  {
    var cmd := first;
    while true
      invariant first <= cmd < |table| && table[cmd].name[0] == word[0]
      invariant forall j | first <= j < cmd :: !Matches(table[j], word)
      decreases |table| - cmd
    {
      if word <= table[cmd].name && table[cmd].runs {
        ScanSkips(table, word, first, cmd);
        return Some(cmd);
      }
      cmd := cmd + 1;
      if cmd == |table| || table[cmd].name[0] != word[0] {
        ScanSkips(table, word, first, cmd);
        NoneElsewhere(table, word, cmd);
        return None;
      }
    }
  }

  /** The look-up of `hx_command`: it agrees with a scan of the whole table. */
  method LookUp(table: seq<Command>, hash: array<int>, str: string) returns (r: Option<nat>)
    requires InOrder(table) && hash.Length == 26 && Indexes(hash[..], table, 26)
    ensures r == Meant(table, str)
  {
    var end := WordEnd(str);
    WordHead(str);
    if str == "" || !IsLetter(str[0]) {
      if Word(str) != "" {
        NoneElsewhere(table, Word(str), 0);
      }
      return None;
    }
    var i := str[0] as int - 'a' as int;
    assert Letter(i) == str[0];
    if hash[i] == -1 {
      NoneElsewhere(table, Word(str), 0);
      return None;
    }
    r := ScanLetter(table, str[..end], hash[i]);
    forall j | 0 <= j < hash[i] ensures !Matches(table[j], Word(str)) {
      OtherLetter(table[j], Word(str));
    }
    ScanSkips(table, Word(str), 0, hash[i]);
  }

  /** A name typed in full runs its own command if and only if no earlier one begins with it. */
  lemma FullNameRuns(table: seq<Command>, i: nat)
    requires InOrder(table) && i < |table| && table[i].runs
    requires forall c | c in table[i].name :: !IsSpaceC(c)
    ensures Meant(table, table[i].name) == Some(i) <==> forall j | 0 <= j < i :: !Matches(table[j], table[i].name)
  {
    var name := table[i].name;
    SpanOf(name, c => !IsSpaceC(c), |name|);
    assert Word(name) == name;
    if forall j | 0 <= j < i :: !Matches(table[j], name) {
      ScanSkips(table, name, 0, i);
    }
  }

  // ---- What a line runs, without the index ----

  lemma WordEnds(word: string, tail: string)
    requires (forall c | c in word :: !IsSpaceC(c)) && (tail == "" || IsSpaceC(tail[0]))
    ensures Word(word + tail) == word
  {
    var s := word + tail;
    forall i | 0 <= i < |word| ensures !IsSpaceC(s[i]) {
      assert s[i] == word[i] && word[i] in word;
    }
    SpanOf(s, c => !IsSpaceC(c), |word|);
    assert s[..|word|] == word;
  }

  /** `word` begins the name of a command that can run. */
  predicate Abbreviates(word: string, c: Command) {
    c.runs && |word| <= |c.name| && c.name[..|word|] == word
  }

  /**
   A line runs the first command whose name its first word begins and whose function is there,
   whatever follows the word, and one that starts with white space or is empty runs none.
   */
  lemma MeantIs(table: seq<Command>, word: string, tail: string, k: nat)
    requires (forall c | c in word :: !IsSpaceC(c)) && (tail == "" || IsSpaceC(tail[0]))
    ensures Meant(table, word + tail) == Some(k) <==>
            word != "" && k < |table| && Abbreviates(word, table[k]) && forall j | 0 <= j < k :: !Abbreviates(word, table[j])
    ensures Meant(table, word + tail) == None <==> word == "" || forall j | 0 <= j < |table| :: !Abbreviates(word, table[j])
  {
    WordEnds(word, tail);
    forall c: Command ensures Matches(c, word) == Abbreviates(word, c) {
    }
  }
}
