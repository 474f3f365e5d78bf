/**
  The symbol table of the pprof service (melon/builtin/pprof_service.cc): built
  from `nm` output, compacted once, then searched by address.

  std::map<uintptr_t, std::string> is a sequence of entries in increasing address
  order. An empty name marks an address range that belongs to no function.
*/
module Symbols {
  import opened Wrappers

  type uintptr = x: int | 0 <= x < 0x1_0000_0000_0000_0000

  datatype Symbol = Symbol(addr: uintptr, name: string)

  type Table = seq<Symbol>

  ghost predicate Sorted(m: Table) {
    forall i, j :: 0 <= i < j < |m| ==> m[i].addr < m[j].addr
  }

  predicate IsBlank(e: Symbol) {
    e.name == ""
  }

  // ----- Lookup

  datatype Answer = Named(name: string) | Unresolved

  function AnswerOf(e: Symbol): Answer {
    if IsBlank(e) then Unresolved else Named(e.name)
  }

  /** The entry with the greatest address at or below `a` decides; without one the address is unresolved. */
  function Resolve(m: Table, a: uintptr): Answer {
    if m == [] then Unresolved
    else if m[|m| - 1].addr <= a then AnswerOf(m[|m| - 1])
    else Resolve(m[..|m| - 1], a)
  }

  /** std::map::lower_bound: the first entry whose address is not below `a`. */
  function LowerBound(m: Table, a: uintptr): (k: nat)
    ensures k <= |m|
    ensures forall i :: 0 <= i < k ==> m[i].addr < a
    ensures k < |m| ==> m[k].addr >= a
  {
    if m == [] || m[0].addr >= a then 0 else 1 + LowerBound(m[1..], a)
  }

  lemma {:induction false} ResolveAt(m: Table, a: uintptr, k: nat)
    requires k <= |m|
    requires k > 0 ==> m[k - 1].addr <= a
    requires forall i :: k <= i < |m| ==> a < m[i].addr
    ensures Resolve(m, a) == if k == 0 then Unresolved else AnswerOf(m[k - 1])
    decreases |m|
  {
    if k < |m| {
      ResolveAt(m[..|m| - 1], a, k);
    }
  }

  /** Entry i is the one at or below `a` with no other between. */
  predicate IsNearest(m: Table, a: uintptr, i: nat) {
    i < |m| && m[i].addr <= a && (i + 1 < |m| ==> a < m[i + 1].addr)
  }

  /** An address is answered by the name of its nearest entry, unless that is blank, */
  lemma ResolveNearest(m: Table, a: uintptr, i: nat)
    requires Sorted(m) && IsNearest(m, a, i)
    ensures Resolve(m, a) == if m[i].name == "" then Unresolved else Named(m[i].name)
  {
    assert forall j :: i + 1 < j < |m| ==> m[i + 1].addr < m[j].addr;
    ResolveAt(m, a, i + 1);
  }

  /** or unless there is none. */
  lemma NoneNearest(m: Table, a: uintptr)
    requires Sorted(m) && (m == [] || a < m[0].addr)
    ensures Resolve(m, a) == Unresolved
  {
    assert forall j :: 0 < j < |m| ==> m[0].addr < m[j].addr;
    ResolveAt(m, a, 0);
  }

  /** FindSymbols: one answer per address. */
  method FindSymbols(m: Table, addrs: seq<uintptr>) returns (answers: seq<Answer>)
    requires Sorted(m)
    ensures |answers| == |addrs|
    ensures forall i :: 0 <= i < |addrs| ==> answers[i] == Resolve(m, addrs[i])
  {
    answers := [];
    for i := 0 to |addrs|
      invariant |answers| == i
      invariant forall j :: 0 <= j < i ==> answers[j] == Resolve(m, addrs[j])
    {
      var a := addrs[i];
      var it := LowerBound(m, a);
      if it == |m| || m[it].addr != a {
        ResolveAt(m, a, it);
        if it != 0 {
          it := it - 1;
        } else {
          answers := answers + [Unresolved];
          continue;
        }
      } else {
        ResolveAt(m, a, it + 1);
      }
      answers := answers + [if m[it].name == "" then Unresolved else Named(m[it].name)];
    }
  }

  // ----- Compaction

  predicate HasBlank(m: Table) {
    exists i :: 0 <= i < |m| && IsBlank(m[i])
  }

  /** What compaction keeps: every named entry and the lowest blank one. */
  function Compacted(m: Table): Table {
    if m == [] then []
    else
      var front, last := m[..|m| - 1], m[|m| - 1];
      if IsBlank(last) && HasBlank(front) then Compacted(front) else Compacted(front) + [last]
  }

  lemma CompactNext(m: Table, j: nat)
    requires j < |m|
    ensures Compacted(m[..j + 1]) ==
            Compacted(m[..j]) + if IsBlank(m[j]) && HasBlank(m[..j]) then [] else [m[j]]
    ensures HasBlank(m[..j + 1]) <==> HasBlank(m[..j]) || IsBlank(m[j])
  {
    var next := m[..j + 1];
    assert next[..j] == m[..j] && next[j] == m[j];
    assert Compacted(m[..j]) + [] == Compacted(m[..j]);
    if HasBlank(m[..j]) {
      var x :| 0 <= x < j && IsBlank(m[..j][x]);
      assert IsBlank(next[x]);
    }
    if HasBlank(next) {
      var x :| 0 <= x <= j && IsBlank(next[x]);
      assert x < j ==> IsBlank(m[..j][x]);
    }
  }

  /** Entries up to j are compacted in place: `kept` of them, the rest as it was. */
  ghost predicate Compacting(m0: Table, m: Table, j: nat, i: nat, seen: bool) {
    j <= |m0| && m == Compacted(m0[..j]) + m0[j..] && i == |Compacted(m0[..j])| && (seen <==> HasBlank(m0[..j]))
  }

  /** The next entry goes if it is blank and another one was, and stays otherwise. */
  lemma CompactTurn(m0: Table, m: Table, j: nat, i: nat, seen: bool)
    requires Compacting(m0, m, j, i, seen) && i < |m|
    ensures j < |m0| && m[i] == m0[j]
    ensures if m[i].name == "" && seen then Compacting(m0, m[..i] + m[i + 1..], j + 1, i, seen)
            else Compacting(m0, m, j + 1, i + 1, seen || m[i].name == "")
  {
    var kept, rest := Compacted(m0[..j]), m0[j..];
    CompactNext(m0, j);
    SplitNext(kept, rest);
    assert rest[1..] == m0[j + 1..] && kept + [] == kept;
  }

  /** The loop at the end of LoadSymbols; the flag is set at the first blank entry and never cleared. */
  method Compact(m0: Table) returns (m: Table, removed: nat)
    ensures m == Compacted(m0)
    ensures removed == |m0| - |m|
  {
    m, removed := m0, 0;
    var i: nat, lastIsEmpty := 0, false;
    ghost var j := 0;
    while i < |m|
      invariant Compacting(m0, m, j, i, lastIsEmpty)
      invariant removed == |m0| - |m|
      decreases |m0| - j
    {
      CompactTurn(m0, m, j, i, lastIsEmpty);
      if m[i].name == "" {
        if lastIsEmpty {
          m := m[..i] + m[i + 1..];
          removed := removed + 1;
        } else {
          i := i + 1;
        }
        lastIsEmpty := true;
      } else {
        i := i + 1;
      }
      j := j + 1;
    }
    assert m0[..j] == m0;
  }

  lemma SplitNext(kept: Table, rest: Table)
    requires rest != []
    ensures (kept + rest)[|kept|] == rest[0]
    ensures (kept + rest)[..|kept|] + (kept + rest)[|kept| + 1..] == kept + rest[1..]
    ensures kept + rest == kept + [rest[0]] + rest[1..]
  {
  }

  /** The blank entries form one run: each blank entry but the lowest directly follows another. */
  predicate BlanksTogether(m: Table) {
    m == [] ||
    var front := m[..|m| - 1];
    BlanksTogether(front) && (IsBlank(m[|m| - 1]) && HasBlank(front) ==> IsBlank(front[|front| - 1]))
  }

  /** That is, between two blank entries there are only blank ones. */
  lemma {:induction false} BlanksTogetherMeans(m: Table)
    ensures BlanksTogether(m) <==>
            forall i, j, k :: 0 <= i < j < k < |m| && IsBlank(m[i]) && IsBlank(m[k]) ==> IsBlank(m[j])
  {
    if m != [] {
      var n := |m| - 1;
      var front := m[..n];
      BlanksTogetherMeans(front);
      assert forall i :: 0 <= i < n ==> front[i] == m[i];
      if !BlanksTogether(m) && BlanksTogether(front) {
        var i :| 0 <= i < n && IsBlank(front[i]);
        assert i < n - 1 < n && IsBlank(m[i]) && IsBlank(m[n]) && !IsBlank(m[n - 1]);
      }
    }
  }

  /** Compaction changes the answer for no address. */
  ghost predicate AnswersKept(m: Table) {
    forall a: uintptr :: Resolve(Compacted(m), a) == Resolve(m, a)
  }

  /** If the last entry is blank, so is the last one kept. */
  lemma {:induction false} LastKeptBlank(m: Table)
    requires m != [] && BlanksTogether(m) && IsBlank(m[|m| - 1])
    ensures Compacted(m) != [] && IsBlank(Compacted(m)[|Compacted(m)| - 1])
    ensures Sorted(m) ==> Compacted(m)[|Compacted(m)| - 1].addr <= m[|m| - 1].addr
  {
    var front := m[..|m| - 1];
    if HasBlank(front) {
      LastKeptBlank(front);
    }
  }

  /** An entry added at the end answers from its address on. */
  lemma ResolveAppended(m: Table, e: Symbol, a: uintptr)
    ensures Resolve(m + [e], a) == if e.addr <= a then AnswerOf(e) else Resolve(m, a)
  {
    assert (m + [e])[..|m|] == m;
  }

  /** A blank entry at the end changes no answer when what stays ends in a blank entry at or below it. */
  lemma BlankAppended(kept: Table, m: Table, e: Symbol, a: uintptr)
    requires kept != [] && IsBlank(kept[|kept| - 1]) && kept[|kept| - 1].addr <= e.addr && IsBlank(e)
    requires Resolve(kept, a) == Resolve(m, a)
    ensures Resolve(kept, a) == Resolve(m + [e], a)
  {
    ResolveAppended(m, e, a);
  }

  /** What one more entry does to the table that is kept. */
  lemma CompactedAppended(m: Table, e: Symbol)
    ensures Compacted(m + [e]) == if IsBlank(e) && HasBlank(m) then Compacted(m) else Compacted(m) + [e]
  {
    assert (m + [e])[..|m|] == m;
  }

  lemma BlankAtEnd(m: Table, e: Symbol)
    requires Sorted(m + [e]) && BlanksTogether(m + [e]) && IsBlank(e) && HasBlank(m)
    ensures var kept := Compacted(m);
            kept != [] && IsBlank(kept[|kept| - 1]) && kept[|kept| - 1].addr <= e.addr
  {
    assert (m + [e])[..|m|] == m;
    assert (m + [e])[|m| - 1].addr < (m + [e])[|m|].addr;
    LastKeptBlank(m);
  }

  /** One run of blanks: whatever is removed resolved as the blank entry that stays. */
  lemma {:induction false} CompactionSafe(m: Table, a: uintptr)
    requires Sorted(m) && BlanksTogether(m)
    ensures Resolve(Compacted(m), a) == Resolve(m, a)
  {
    if m != [] {
      var front, last := m[..|m| - 1], m[|m| - 1];
      assert m == front + [last];
      CompactionSafe(front, a);
      CompactedAppended(front, last);
      if IsBlank(last) && HasBlank(front) {
        BlankAtEnd(front, last);
        BlankAppended(Compacted(front), front, last, a);
      } else {
        ResolveAppended(Compacted(front), last, a);
        ResolveAppended(front, last, a);
      }
    }
  }

  /** The last entry starts a second run of blanks right after a named entry: it goes, and the named entry answers. */
  lemma SecondRunBreaks(m: Table)
    requires Sorted(m) && |m| >= 2 && IsBlank(m[|m| - 1]) && !IsBlank(m[|m| - 2]) && HasBlank(m[..|m| - 1])
    ensures Resolve(Compacted(m), m[|m| - 1].addr) != Resolve(m, m[|m| - 1].addr)
  {
  }

  /** A second run of blanks: its first entry is removed and its address then falls to a named entry. */
  lemma {:induction false} CompactionBreaks(m: Table) returns (k: nat)
    requires Sorted(m) && !BlanksTogether(m)
    ensures k < |m| && Resolve(Compacted(m), m[k].addr) != Resolve(m, m[k].addr)
  {
    var front := m[..|m| - 1];
    if BlanksTogether(front) {
      SecondRunBreaks(m);
      k := |m| - 1;
    } else {
      k := CompactionBreaks(front);
      KeptFront(m, m[k].addr);
    }
  }

  /** Below the last address, compaction answers as it does without the last entry. */
  lemma KeptFront(m: Table, a: uintptr)
    requires m != [] && a < m[|m| - 1].addr
    ensures Resolve(Compacted(m), a) == Resolve(Compacted(m[..|m| - 1]), a)
    ensures Resolve(m, a) == Resolve(m[..|m| - 1], a)
  {
  }

  /** Compaction keeps every answer exactly when the blank entries form one run. */
  lemma CompactionKeepsAnswersIff(m: Table)
    requires Sorted(m)
    ensures AnswersKept(m) <==> BlanksTogether(m)
  {
    if BlanksTogether(m) {
      forall a: uintptr ensures Resolve(Compacted(m), a) == Resolve(m, a) {
        CompactionSafe(m, a);
      }
    } else {
      var k := CompactionBreaks(m);
    }
  }

  /** What compaction keeps, entry by entry. */
  lemma {:induction false} CompactedEntries(m: Table, e: Symbol)
    ensures e in Compacted(m) <==>
            exists i :: 0 <= i < |m| && m[i] == e && (!IsBlank(e) || forall j :: 0 <= j < i ==> !IsBlank(m[j]))
  {
    if m != [] {
      var n := |m| - 1;
      var front := m[..n];
      CompactedEntries(front, e);
      if e in Compacted(front) {
        var i :| 0 <= i < |front| && front[i] == e && (!IsBlank(e) || forall j :: 0 <= j < i ==> !IsBlank(front[j]));
        assert m[i] == e;
      }
      if exists i :: 0 <= i < n && m[i] == e && (!IsBlank(e) || forall j :: 0 <= j < i ==> !IsBlank(m[j])) {
        var i :| 0 <= i < n && m[i] == e && (!IsBlank(e) || forall j :: 0 <= j < i ==> !IsBlank(m[j]));
        assert front[i] == e;
      }
    }
  }

  // ----- Compaction with the flag cleared at named entries

  /** What would remain if the flag were reset at each named entry: the first blank of every run. */
  function CompactedRuns(m: Table): Table {
    if m == [] then []
    else
      var front, last := m[..|m| - 1], m[|m| - 1];
      if IsBlank(last) && front != [] && IsBlank(front[|front| - 1]) then CompactedRuns(front)
      else CompactedRuns(front) + [last]
  }

  /** What it would keep, entry by entry. */
  lemma {:induction false} CompactedRunsEntries(m: Table, e: Symbol)
    ensures e in CompactedRuns(m) <==>
            exists i :: 0 <= i < |m| && m[i] == e && (!IsBlank(e) || i == 0 || !IsBlank(m[i - 1]))
  {
    if m != [] {
      var n := |m| - 1;
      CompactedRunsEntries(m[..n], e);
      assert forall i :: 0 <= i < n ==> m[..n][i] == m[i];
    }
  }

  lemma {:induction false} LastRunKept(m: Table)
    requires m != [] && IsBlank(m[|m| - 1])
    ensures CompactedRuns(m) != [] && IsBlank(CompactedRuns(m)[|CompactedRuns(m)| - 1])
    ensures Sorted(m) ==> CompactedRuns(m)[|CompactedRuns(m)| - 1].addr <= m[|m| - 1].addr
  {
    var front := m[..|m| - 1];
    if front != [] && IsBlank(front[|front| - 1]) {
      LastRunKept(front);
    }
  }

  /** With that change every table would keep every answer. */
  lemma {:induction false} CompactedRunsKeepsAnswers(m: Table, a: uintptr)
    requires Sorted(m)
    ensures Resolve(CompactedRuns(m), a) == Resolve(m, a)
  {
    if m != [] {
      var front, last := m[..|m| - 1], m[|m| - 1];
      CompactedRunsKeepsAnswers(front, a);
      if IsBlank(last) && front != [] && IsBlank(front[|front| - 1]) {
        LastRunKept(front);
      } else {
        assert (CompactedRuns(front) + [last])[..|CompactedRuns(front)|] == CompactedRuns(front);
      }
    }
  }

  // ----- Building the table

  function Get(m: Table, a: uintptr): Option<string> {
    var k := LowerBound(m, a);
    if k < |m| && m[k].addr == a then Some(m[k].name) else None
  }

  /** `addr_map[a] = name`. */
  function Put(m: Table, a: uintptr, name: string): Table {
    var k := LowerBound(m, a);
    if k < |m| && m[k].addr == a then m[k := Symbol(a, name)] else m[..k] + [Symbol(a, name)] + m[k..]
  }

  lemma PutSorted(m: Table, a: uintptr, name: string)
    requires Sorted(m)
    ensures Sorted(Put(m, a, name))
  {
  }

  lemma GetUnique(m: Table, i: nat, a: uintptr)
    requires Sorted(m) && i < |m| && m[i].addr == a
    ensures Get(m, a) == Some(m[i].name)
  {
  }

  lemma GetMissing(m: Table, a: uintptr)
    requires forall i :: 0 <= i < |m| ==> m[i].addr != a
    ensures Get(m, a) == None
  {
  }

  lemma PutGet(m: Table, a: uintptr, name: string, b: uintptr)
    requires Sorted(m)
    ensures Get(Put(m, a, name), b) == if b == a then Some(name) else Get(m, b)
  {
    var k, p := LowerBound(m, a), Put(m, a, name);
    PutSorted(m, a, name);
    if b == a {
      GetUnique(p, k, a);
    } else if Get(m, b).Some? {
      var i := LowerBound(m, b);
      var j := if i < k || |p| == |m| then i else i + 1;
      assert p[j] == m[i];
      GetUnique(p, j, b);
    } else {
      forall j | 0 <= j < |p| ensures p[j].addr != b {
        if j != k {
          var i := if j < k || |p| == |m| then j else j - 1;
          assert p[j] == m[i];
          if m[i].addr == b {
            GetUnique(m, i, b);
          }
        }
      }
      GetMissing(p, b);
    }
  }

  /** A mapped library: its address range and the file offset it was loaded at. */
  datatype LibInfo = LibInfo(start: uintptr, end: uintptr, offset: uintptr)

  /** A line of nm output that has an address and a one-letter type: the address and the text of the name. */
  datatype Record = Record(addr: uintptr, text: string)

  function Relocated(info: LibInfo, addr: uintptr): uintptr {
    if addr < info.start then (addr + info.start - info.offset) % 0x1_0000_0000_0000_0000 else addr
  }

  /** Where a record lands: a file address moves by start - offset, modulo 2^64; a memory address stays. */
  ghost predicate LandsAt(info: LibInfo, addr: uintptr, b: uintptr) {
    if info.start <= addr then b == addr
    else
      var moved: int := addr + info.start - info.offset;
      b == moved || b == moved + 0x1_0000_0000_0000_0000 || b == moved - 0x1_0000_0000_0000_0000
  }

  lemma RelocatedLands(info: LibInfo, addr: uintptr, b: uintptr)
    ensures Relocated(info, addr) == b <==> LandsAt(info, addr, b)
  {
  }

  predicate IsExcluded(text: string) {
    "typeinfo " <= text || "VTT " <= text || "vtable " <= text || "global " <= text || "guard " <= text
  }

  predicate IsWordChar(c: char) {
    'a' <= c <= 'z' || 'A' <= c <= 'Z' || '0' <= c <= '9' || c == '_'
  }

  /** The name stops at the end of the line, or at a bracket that directly follows a word. */
  predicate StopsAt(text: string, i: nat)
    requires i < |text|
  {
    || text[i] == '\0' || text[i] == '\r' || text[i] == '\n'
    || ((text[i] == '(' || text[i] == '<') && i > 0 && IsWordChar(text[i - 1]))
  }

  method NameEnd(text: string) returns (e: nat)
    ensures e <= |text|
    ensures forall i :: 0 <= i < e ==> !StopsAt(text, i)
    ensures e < |text| ==> StopsAt(text, e)
  {
    e := 0;
    var lastChar := '\0';
    while e < |text|
      invariant e <= |text| && lastChar == if e == 0 then '\0' else text[e - 1]
      invariant forall i :: 0 <= i < e ==> !StopsAt(text, i)
    {
      var c := text[e];
      if c == '\0' || c == '\r' || c == '\n' {
        break;
      }
      if (c == '(' || c == '<') && IsWordChar(lastChar) {
        break;
      }
      lastChar, e := c, e + 1;
    }
  }

  /** The name part of a record's text. */
  function NameOf(text: string): (name: string)
    ensures name <= text
    ensures forall i :: 0 <= i < |name| ==> !StopsAt(text, i)
    ensures |name| < |text| ==> StopsAt(text, |name|)
  {
    NamePrefix(text, 0)
  }

  function NamePrefix(text: string, i: nat): (name: string)
    requires i <= |text| && forall j :: 0 <= j < i ==> !StopsAt(text, j)
    ensures |name| >= i && name <= text
    ensures forall j :: 0 <= j < |name| ==> !StopsAt(text, j)
    ensures |name| < |text| ==> StopsAt(text, |name|)
    decreases |text| - i
  {
    if i == |text| || StopsAt(text, i) then text[..i] else NamePrefix(text, i + 1)
  }

  /** The candidate name of a record: excluded kinds count as blank. */
  function Candidate(text: string): string {
    if IsExcluded(text) then "" else NameOf(text)
  }

  /** The candidate in terms of the characters of the text. */
  lemma CandidateIs(text: string)
    ensures var name := Candidate(text);
            if "typeinfo " <= text || "VTT " <= text || "vtable " <= text || "global " <= text || "guard " <= text
            then name == ""
            else
              && name <= text
              && '\0' !in name && '\r' !in name && '\n' !in name
              && (forall i :: 0 < i < |name| && (name[i] == '(' || name[i] == '<') ==> !EndsInWord(name[..i]))
              && (|name| < |text| ==>
                    || text[|name|] == '\0' || text[|name|] == '\r' || text[|name|] == '\n'
                    || ((text[|name|] == '(' || text[|name|] == '<') && EndsInWord(name)))
  {
    var name := Candidate(text);
    if !IsExcluded(text) {
      forall c | c in name ensures c != '\0' && c != '\r' && c != '\n' {
        var i :| 0 <= i < |name| && name[i] == c;
        assert !StopsAt(text, i);
      }
      forall i | 0 < i < |name| && (name[i] == '(' || name[i] == '<') ensures !EndsInWord(name[..i]) {
        assert !StopsAt(text, i) && name[..i][i - 1] == text[i - 1];
      }
    }
  }

  /** The last character is a letter, a digit or an underscore. */
  predicate EndsInWord(s: string) {
    s != "" &&
    var c := s[|s| - 1];
    'a' <= c <= 'z' || 'A' <= c <= 'Z' || '0' <= c <= '9' || c == '_'
  }

  /** So of a function with its arguments the name is left. */
  lemma ArgumentsAreCut(name: string, bracket: char, rest: string)
    requires bracket == '(' || bracket == '<'
    requires EndsInWord(name) && forall c :: c in name ==> c !in "\0\r\n(<"
    requires var text := name + [bracket] + rest;
             !("typeinfo " <= text) && !("VTT " <= text) && !("vtable " <= text) && !("global " <= text) &&
             !("guard " <= text)
    ensures Candidate(name + [bracket] + rest) == name
  {
    var text := name + [bracket] + rest;
    forall i | 0 <= i < |name| ensures !StopsAt(text, i) {
      assert text[i] == name[i] && name[i] in name;
    }
    NameEndIsNameOf(text, |name|);
  }

  predicate Concerns(info: LibInfo, r: Record, b: uintptr) {
    Relocated(info, r.addr) == b && b < info.end
  }

  /** Keep the shorter name, the earlier one of equals. */
  function Shorter(prior: Option<string>, candidate: string): string {
    if prior.Some? && |prior.value| <= |candidate| then prior.value else candidate
  }

  function FinalName(prior: Option<string>, info: LibInfo, rs: seq<Record>, b: uintptr): Option<string> {
    if rs == [] then prior
    else
      var before := FinalName(prior, info, rs[..|rs| - 1], b);
      var r := rs[|rs| - 1];
      if Concerns(info, r, b) then Some(Shorter(before, Candidate(r.text))) else before
  }

  /** No name in play for an address is shorter than the one it ends up with. */
  lemma {:induction false} FinalNameIsShortest(prior: Option<string>, info: LibInfo, rs: seq<Record>, b: uintptr)
    ensures var f := FinalName(prior, info, rs, b);
            && (prior.Some? ==> f.Some? && |f.value| <= |prior.value|)
            && (forall i :: 0 <= i < |rs| && b < info.end && LandsAt(info, rs[i].addr, b) ==>
                  f.Some? && |f.value| <= |Candidate(rs[i].text)|)
  {
    if rs != [] {
      var n := |rs| - 1;
      FinalNameIsShortest(prior, info, rs[..n], b);
      RelocatedLands(info, rs[n].addr, b);
      assert forall i :: 0 <= i < n ==> rs[..n][i] == rs[i];
    }
  }

  /** Record i supplies name f for address b: it lands there, and no name in play before it is as short. */
  ghost predicate Supplies(prior: Option<string>, info: LibInfo, rs: seq<Record>, b: uintptr, f: Option<string>, i: nat)
  {
    && i < |rs| && b < info.end && LandsAt(info, rs[i].addr, b) && f == Some(Candidate(rs[i].text))
    && (prior.Some? ==> |f.value| < |prior.value|)
    && (forall j :: 0 <= j < i && LandsAt(info, rs[j].addr, b) ==> |f.value| < |Candidate(rs[j].text)|)
  }

  lemma SuppliesNext(prior: Option<string>, info: LibInfo, rs: seq<Record>, n: nat, b: uintptr, f: Option<string>)
    requires n < |rs| && b < info.end && LandsAt(info, rs[n].addr, b) && f == Some(Candidate(rs[n].text))
    requires var before := FinalName(prior, info, rs[..n], b); before.Some? ==> |f.value| < |before.value|
    ensures Supplies(prior, info, rs, b, f, n)
  {
    FinalNameIsShortest(prior, info, rs[..n], b);
    assert forall j :: 0 <= j < n ==> rs[..n][j] == rs[j];
  }

  lemma SuppliesLonger(prior: Option<string>, info: LibInfo, rs: seq<Record>, n: nat, b: uintptr, f: Option<string>,
                       i: nat)
    requires n <= |rs| && Supplies(prior, info, rs[..n], b, f, i)
    ensures Supplies(prior, info, rs, b, f, i)
  {
    assert forall j :: 0 <= j < n ==> rs[..n][j] == rs[j];
  }

  lemma LastRecord(prior: Option<string>, info: LibInfo, rs: seq<Record>, b: uintptr)
    requires rs != []
    ensures var f, before, r := FinalName(prior, info, rs, b), FinalName(prior, info, rs[..|rs| - 1], b), rs[|rs| - 1];
            || f == before
            || (&& b < info.end && LandsAt(info, r.addr, b) && f == Some(Candidate(r.text))
                && (before.Some? ==> |f.value| < |before.value|))
  {
    RelocatedLands(info, rs[|rs| - 1].addr, b);
  }

  /** And it is the first of those names. */
  lemma {:induction false} FinalNameIsInPlay(prior: Option<string>, info: LibInfo, rs: seq<Record>, b: uintptr)
    ensures var f := FinalName(prior, info, rs, b); f == prior || exists i :: Supplies(prior, info, rs, b, f, i)
  {
    if rs != [] {
      var n := |rs| - 1;
      FinalNameIsInPlay(prior, info, rs[..n], b);
      LastRecord(prior, info, rs, b);
      var f, before := FinalName(prior, info, rs, b), FinalName(prior, info, rs[..n], b);
      if f != before {
        SuppliesNext(prior, info, rs, n, b, f);
      } else if before != prior {
        var i :| Supplies(prior, info, rs[..n], b, before, i);
        SuppliesLonger(prior, info, rs, n, b, f, i);
      }
    }
  }

  /** A name no longer than that. */
  predicate NamedWithin(name: Option<string>, length: nat) {
    name.Some? && |name.value| <= length
  }

  /** A record of a memory address inside the library is found there, */
  ghost predicate FoundInMemory(m: Table, info: LibInfo, rs: seq<Record>) {
    forall i :: 0 <= i < |rs| && info.start <= rs[i].addr < info.end ==>
      NamedWithin(Get(m, rs[i].addr), |Candidate(rs[i].text)|)
  }

  /** one of a file address where the library was mapped, */
  ghost predicate FoundWhereMapped(m: Table, info: LibInfo, rs: seq<Record>) {
    forall i, a: uintptr ::
      0 <= i < |rs| && rs[i].addr < info.start && a == info.start - info.offset + rs[i].addr && a < info.end ==>
        NamedWithin(Get(m, a), |Candidate(rs[i].text)|)
  }

  /** and below the end no address has taken a name from a record that lands elsewhere. */
  ghost predicate NothingElse(m0: Table, m: Table, info: LibInfo, rs: seq<Record>) {
    forall b: uintptr :: b != info.end && Get(m, b) != Get(m0, b) ==>
      exists i :: Supplies(Get(m0, b), info, rs, b, Get(m, b), i)
  }

  lemma FoundWhereTheyLand(m0: Table, info: LibInfo, rs: seq<Record>)
    ensures forall i :: 0 <= i < |rs| && info.start <= rs[i].addr < info.end ==>
              NamedWithin(FinalName(Get(m0, rs[i].addr), info, rs, rs[i].addr), |Candidate(rs[i].text)|)
    ensures forall i, a: uintptr :: 0 <= i < |rs| && rs[i].addr < info.start && a < info.end
                                    && a == info.start - info.offset + rs[i].addr ==>
              NamedWithin(FinalName(Get(m0, a), info, rs, a), |Candidate(rs[i].text)|)
    ensures forall b: uintptr :: FinalName(Get(m0, b), info, rs, b) != Get(m0, b) ==>
              exists i :: Supplies(Get(m0, b), info, rs, b, FinalName(Get(m0, b), info, rs, b), i)
  {
    forall b: uintptr
      ensures var prior, f := Get(m0, b), FinalName(Get(m0, b), info, rs, b);
              f == prior || exists i :: Supplies(prior, info, rs, b, f, i)
    {
      FinalNameIsInPlay(Get(m0, b), info, rs, b);
    }
    forall i | 0 <= i < |rs| && info.start <= rs[i].addr < info.end
      ensures NamedWithin(FinalName(Get(m0, rs[i].addr), info, rs, rs[i].addr), |Candidate(rs[i].text)|)
    {
      FinalNameIsShortest(Get(m0, rs[i].addr), info, rs, rs[i].addr);
    }
    forall i, a: uintptr | 0 <= i < |rs| && rs[i].addr < info.start && a < info.end
                           && a == info.start - info.offset + rs[i].addr
      ensures NamedWithin(FinalName(Get(m0, a), info, rs, a), |Candidate(rs[i].text)|)
    {
      FinalNameIsShortest(Get(m0, a), info, rs, a);
    }
  }

  /** ExtractSymbolsFromBinary, from the parsed records on. */
  method ExtractSymbols(m0: Table, info: LibInfo, rs: seq<Record>) returns (m: Table)
    requires Sorted(m0)
    ensures Sorted(m)
    ensures forall b: uintptr :: b != info.end ==> Get(m, b) == FinalName(Get(m0, b), info, rs, b)
    ensures Get(m, info.end) == Some(if Get(m0, info.end).Some? then Get(m0, info.end).value else "")
    ensures FoundInMemory(m, info, rs) && FoundWhereMapped(m, info, rs) && NothingElse(m0, m, info, rs)
  {
    m := m0;
    for i := 0 to |rs|
      invariant Sorted(m)
      invariant forall b: uintptr :: Get(m, b) == FinalName(Get(m0, b), info, rs[..i], b)
    {
      assert rs[..i + 1][..i] == rs[..i];
      var addr := Relocated(info, rs[i].addr);
      if addr >= info.end {
        continue;
      }
      var name := "";
      if !IsExcluded(rs[i].text) {
        var e := NameEnd(rs[i].text);
        NameEndIsNameOf(rs[i].text, e);
        name := rs[i].text[..e];
        var it := Get(m, addr);
        if it.Some? && e >= |it.value| {
          name := it.value;
        }
      }
      PutAll(m, addr, name);
      m := Put(m, addr, name);
    }
    assert rs[..|rs|] == rs;
    EndNotConcerned(Get(m0, info.end), info, rs);
    FoundWhereTheyLand(m0, info, rs);
    if Get(m, info.end).None? {
      PutAll(m, info.end, "");
      m := Put(m, info.end, "");
    }
  }

  lemma PutAll(m: Table, a: uintptr, name: string)
    requires Sorted(m)
    ensures Sorted(Put(m, a, name))
    ensures forall b: uintptr :: Get(Put(m, a, name), b) == if b == a then Some(name) else Get(m, b)
  {
    PutSorted(m, a, name);
    var p := Put(m, a, name);
    forall b: uintptr ensures Get(p, b) == if b == a then Some(name) else Get(m, b) {
      PutGet(m, a, name, b);
    }
  }

  lemma NameEndIsNameOf(text: string, e: nat)
    requires e <= |text| && (forall i :: 0 <= i < e ==> !StopsAt(text, i)) && (e < |text| ==> StopsAt(text, e))
    ensures NameOf(text) == text[..e]
  {
  }

  lemma {:induction false} EndNotConcerned(prior: Option<string>, info: LibInfo, rs: seq<Record>)
    ensures FinalName(prior, info, rs, info.end) == prior
  {
    if rs != [] {
      EndNotConcerned(prior, info, rs[..|rs| - 1]);
    }
  }

  // ----- The whole of LoadSymbols

  const UINTPTR_MAX: uintptr := 0xffff_ffff_ffff_ffff

  /** A mapped library, or the program itself, with what nm says about it; None if nm could not be run. */
  datatype Binary = Binary(info: LibInfo, records: Option<seq<Record>>)

  /** The program is loaded last, over the whole address space. */
  function Program(records: Option<seq<Record>>): Binary {
    Binary(LibInfo(0, UINTPTR_MAX, 0), records)
  }

  /** What one more binary makes of the name at an address. */
  function Merged(prior: Option<string>, binary: Binary, b: uintptr): Option<string> {
    if binary.records.None? then prior
    else if b == binary.info.end then Some(if prior.Some? then prior.value else "")
    else FinalName(prior, binary.info, binary.records.value, b)
  }

  /** The name at an address after all binaries: None, blank, or a function. */
  function NameAt(binaries: seq<Binary>, b: uintptr): Option<string> {
    if binaries == [] then None else Merged(NameAt(binaries[..|binaries| - 1], b), binaries[|binaries| - 1], b)
  }

  /** The table holds these names. */
  ghost predicate Loaded(full: Table, binaries: seq<Binary>) {
    Sorted(full) && forall b: uintptr :: Get(full, b) == NameAt(binaries, b)
  }

  lemma LoadedNext(full: Table, next: Table, binaries: seq<Binary>, i: nat)
    requires i < |binaries| && Loaded(full, binaries[..i]) && Sorted(next)
    requires forall b: uintptr :: Get(next, b) == Merged(Get(full, b), binaries[i], b)
    ensures Loaded(next, binaries[..i + 1])
  {
    assert binaries[..i + 1][..i] == binaries[..i];
  }

  /** Load the libraries, then the program, then compact; the table before compaction is returned as a ghost. */
  method LoadSymbols(libraries: seq<Binary>, program: Option<seq<Record>>) returns (m: Table, ghost full: Table)
    ensures Loaded(full, libraries + [Program(program)]) && m == Compacted(full)
  {
    var binaries := libraries + [Program(program)];
    m := [];
    for i := 0 to |binaries|
      invariant Loaded(m, binaries[..i])
    {
      var next := m;
      if binaries[i].records.Some? {
        next := ExtractSymbols(m, binaries[i].info, binaries[i].records.value);
      }
      LoadedNext(m, next, binaries, i);
      m := next;
    }
    assert binaries[..|binaries|] == binaries;
    full := m;
    var removed: nat;
    m, removed := Compact(m);
  }

  /** A binary that was read has a record that lands at b and has this candidate. */
  ghost predicate Offers(binary: Binary, b: uintptr, i: nat, name: string) {
    && binary.records.Some? && i < |binary.records.value| && b < binary.info.end
    && LandsAt(binary.info, binary.records.value[i].addr, b)
    && name == Candidate(binary.records.value[i].text)
  }

  /** Records of the program land at their own addresses, all but the highest. */
  lemma ProgramKeepsAddresses(rs: seq<Record>, b: uintptr, i: nat, name: string)
    ensures Offers(Program(Some(rs)), b, i, name) <==>
            i < |rs| && rs[i].addr == b < 0xffff_ffff_ffff_ffff && name == Candidate(rs[i].text)
  {
  }

  /** An address that a record of some binary lands at has a name, no longer than any that lands there. */
  lemma {:induction false} NameIsShortest(binaries: seq<Binary>, k: nat, b: uintptr, i: nat, name: string)
    requires k < |binaries| && Offers(binaries[k], b, i, name)
    ensures NamedWithin(NameAt(binaries, b), |name|)
  {
    var n := |binaries| - 1;
    var prior, last := NameAt(binaries[..n], b), binaries[n];
    if last.records.Some? {
      FinalNameIsShortest(prior, last.info, last.records.value, b);
    }
    if k < n {
      NameIsShortest(binaries[..n], k, b, i, name);
    }
  }

  /** And a name that is not blank is that of a record that lands there. */
  lemma {:induction false} NameIsOffered(binaries: seq<Binary>, b: uintptr) returns (k: nat, i: nat)
    requires IsNamed(NameAt(binaries, b))
    ensures k < |binaries| && Offers(binaries[k], b, i, NameAt(binaries, b).value)
  {
    var n := |binaries| - 1;
    var prior, last, name := NameAt(binaries[..n], b), binaries[n], NameAt(binaries, b);
    if name == prior {
      k, i := NameIsOffered(binaries[..n], b);
    } else {
      FinalNameIsInPlay(prior, last.info, last.records.value, b);
      i :| Supplies(prior, last.info, last.records.value, b, name, i);
      k := n;
    }
  }

  /** Compaction or not, a function is found at its own address. */
  lemma {:induction false} NamedStaysFound(m: Table, k: nat)
    requires Sorted(m) && k < |m| && !IsBlank(m[k])
    ensures Resolve(Compacted(m), m[k].addr) == Named(m[k].name)
  {
    var n := |m| - 1;
    if k < n {
      NamedStaysFound(m[..n], k);
      KeptFront(m, m[k].addr);
    }
  }

  /** What the service answers at the address of a function: a shortest name among the records that land there. */
  lemma FunctionIsFound(binaries: seq<Binary>, full: Table, b: uintptr) returns (k: nat, i: nat)
    requires Loaded(full, binaries) && IsNamed(NameAt(binaries, b))
    ensures Resolve(Compacted(full), b) == Named(NameAt(binaries, b).value)
    ensures k < |binaries| && Offers(binaries[k], b, i, NameAt(binaries, b).value)
    ensures forall j, x, name :: 0 <= j < |binaries| && Offers(binaries[j], b, x, name) ==>
              |NameAt(binaries, b).value| <= |name|
  {
    var e := EntryAt(full, binaries, b);
    NamedStaysFound(full, e);
    k, i := NameIsOffered(binaries, b);
    forall j, x, name | 0 <= j < |binaries| && Offers(binaries[j], b, x, name)
      ensures |NameAt(binaries, b).value| <= |name|
    {
      NameIsShortest(binaries, j, b, x, name);
    }
  }

  lemma {:induction false} NotConcerned(prior: Option<string>, info: LibInfo, rs: seq<Record>, b: uintptr)
    requires info.end <= b
    ensures FinalName(prior, info, rs, b) == prior
  {
    if rs != [] {
      NotConcerned(prior, info, rs[..|rs| - 1], b);
    }
  }

  /** Nothing is ever named at the highest address. */
  lemma {:induction false} HighestIsBlank(binaries: seq<Binary>)
    ensures NameAt(binaries, UINTPTR_MAX) == None || NameAt(binaries, UINTPTR_MAX) == Some("")
  {
    if binaries != [] {
      var n := |binaries| - 1;
      HighestIsBlank(binaries[..n]);
      if binaries[n].records.Some? {
        NotConcerned(NameAt(binaries[..n], UINTPTR_MAX), binaries[n].info, binaries[n].records.value, UINTPTR_MAX);
      }
    }
  }

  lemma ProgramEndsBlank(libraries: seq<Binary>, program: Option<seq<Record>>)
    requires program.Some?
    ensures NameAt(libraries + [Program(program)], UINTPTR_MAX) == Some("")
  {
    assert (libraries + [Program(program)])[..|libraries|] == libraries;
    HighestIsBlank(libraries);
  }

  predicate IsNamed(name: Option<string>) {
    name.Some? && name.value != ""
  }

  /** Every function lies below every blank entry. */
  ghost predicate NamedBelowBlank(binaries: seq<Binary>) {
    forall b: uintptr, c: uintptr :: NameAt(binaries, b) == Some("") && IsNamed(NameAt(binaries, c)) ==> c < b
  }

  /** Blank entries, once begun, go on to the end of the table. */
  ghost predicate BlankTail(m: Table) {
    forall i, j :: 0 <= i < j < |m| && IsBlank(m[i]) ==> IsBlank(m[j])
  }

  /** With a blank entry at the end, one run of blanks is a blank tail. */
  lemma TogetherIsTail(m: Table)
    requires m != [] && IsBlank(m[|m| - 1])
    ensures BlanksTogether(m) <==> BlankTail(m)
  {
    BlanksTogetherMeans(m);
    if BlanksTogether(m) {
      var n := |m| - 1;
      forall i, j | 0 <= i < j < |m| && IsBlank(m[i]) ensures IsBlank(m[j]) {
        assert j < n ==> i < j < n && IsBlank(m[n]);
      }
    }
  }

  lemma TailMeansBelow(full: Table, binaries: seq<Binary>)
    requires Loaded(full, binaries)
    ensures BlankTail(full) ==> NamedBelowBlank(binaries)
  {
    if BlankTail(full) {
      forall b: uintptr, c: uintptr | NameAt(binaries, b) == Some("") && IsNamed(NameAt(binaries, c)) ensures c < b {
        var i, j := LowerBound(full, b), LowerBound(full, c);
        assert Get(full, b) == Some("") && Get(full, c) == NameAt(binaries, c);
        assert full[i].addr == b && IsBlank(full[i]) && full[j].addr == c && !IsBlank(full[j]);
      }
    }
  }

  lemma BelowMeansTail(full: Table, binaries: seq<Binary>)
    requires Loaded(full, binaries) && NamedBelowBlank(binaries)
    ensures BlankTail(full)
  {
    forall i, j | 0 <= i < j < |full| && IsBlank(full[i]) ensures IsBlank(full[j]) {
      GetUnique(full, i, full[i].addr);
      GetUnique(full, j, full[j].addr);
      assert Get(full, full[i].addr) == NameAt(binaries, full[i].addr);
      assert Get(full, full[j].addr) == NameAt(binaries, full[j].addr);
    }
  }

  lemma LastIsHighest(full: Table, binaries: seq<Binary>)
    requires Loaded(full, binaries) && NameAt(binaries, UINTPTR_MAX) == Some("")
    ensures full != [] && IsBlank(full[|full| - 1])
  {
    assert Get(full, UINTPTR_MAX) == Some("");
    var k := LowerBound(full, UINTPTR_MAX);
    assert full[k].addr == UINTPTR_MAX && full[k].name == "";
    assert k + 1 < |full| ==> full[k].addr < full[k + 1].addr;
  }

  /** No function lies between two blank entries. */
  ghost predicate NoNamedBetween(binaries: seq<Binary>) {
    forall a: uintptr, b: uintptr, c: uintptr ::
      a < b < c && NameAt(binaries, a) == Some("") && NameAt(binaries, c) == Some("") ==> !IsNamed(NameAt(binaries, b))
  }

  /** The entry that gives an address its name. */
  lemma EntryAt(full: Table, binaries: seq<Binary>, a: uintptr) returns (i: nat)
    requires Loaded(full, binaries) && NameAt(binaries, a).Some?
    ensures i < |full| && full[i].addr == a && NameAt(binaries, a) == Some(full[i].name)
  {
    i := LowerBound(full, a);
    assert Get(full, a) == NameAt(binaries, a);
  }

  lemma IndexOrder(m: Table, i: nat, j: nat)
    requires Sorted(m) && i < |m| && j < |m| && m[i].addr < m[j].addr
    ensures i < j
  {
  }

  lemma BlankBetween(m: Table, i: nat, j: nat, k: nat)
    requires BlanksTogether(m) && i < j < k < |m| && IsBlank(m[i]) && IsBlank(m[k])
    ensures IsBlank(m[j])
  {
    BlanksTogetherMeans(m);
  }

  lemma BlankBetweenAddresses(full: Table, binaries: seq<Binary>, a: uintptr, b: uintptr, c: uintptr)
    requires Loaded(full, binaries) && BlanksTogether(full) && a < b < c
    requires NameAt(binaries, a) == Some("") && NameAt(binaries, c) == Some("") && NameAt(binaries, b).Some?
    ensures NameAt(binaries, b) == Some("")
  {
    var i := EntryAt(full, binaries, a);
    var j := EntryAt(full, binaries, b);
    var k := EntryAt(full, binaries, c);
    IndexOrder(full, i, j);
    IndexOrder(full, j, k);
    BlankBetween(full, i, j, k);
  }

  lemma TogetherMeansNoneBetween(full: Table, binaries: seq<Binary>)
    requires Loaded(full, binaries) && BlanksTogether(full)
    ensures NoNamedBetween(binaries)
  {
    forall a: uintptr, b: uintptr, c: uintptr
      | a < b < c && NameAt(binaries, a) == Some("") && NameAt(binaries, c) == Some("")
      ensures !IsNamed(NameAt(binaries, b))
    {
      if NameAt(binaries, b).Some? {
        BlankBetweenAddresses(full, binaries, a, b, c);
      }
    }
  }

  lemma EntryName(full: Table, binaries: seq<Binary>, i: nat)
    requires Loaded(full, binaries) && i < |full|
    ensures NameAt(binaries, full[i].addr) == Some(full[i].name)
  {
    GetUnique(full, i, full[i].addr);
    assert Get(full, full[i].addr) == NameAt(binaries, full[i].addr);
  }

  lemma NoneBetweenMeansTogether(full: Table, binaries: seq<Binary>)
    requires Loaded(full, binaries) && NoNamedBetween(binaries)
    ensures BlanksTogether(full)
  {
    forall i, j, k | 0 <= i < j < k < |full| && IsBlank(full[i]) && IsBlank(full[k]) ensures IsBlank(full[j]) {
      EntryName(full, binaries, i);
      EntryName(full, binaries, j);
      EntryName(full, binaries, k);
    }
    BlanksTogetherMeans(full);
  }

  /** Whatever nm could be run on, compaction keeps every answer if and only if no function lies between blanks. */
  lemma LoadedAnswersKept(binaries: seq<Binary>, full: Table)
    requires Loaded(full, binaries)
    ensures AnswersKept(full) <==> NoNamedBetween(binaries)
  {
    CompactionKeepsAnswersIff(full);
    if BlanksTogether(full) {
      TogetherMeansNoneBetween(full, binaries);
    }
    if NoNamedBetween(binaries) {
      NoneBetweenMeansTogether(full, binaries);
    }
  }

  /**
    With the program loaded, which ends in a blank entry at the highest address:
    compaction keeps every answer if and only if every function lies below every
    blank entry, the end of any library among them.
  */
  lemma LoadedAnswersKeptIff(libraries: seq<Binary>, program: Option<seq<Record>>, full: Table)
    requires program.Some? && Loaded(full, libraries + [Program(program)])
    ensures AnswersKept(full) <==> NamedBelowBlank(libraries + [Program(program)])
  {
    var binaries := libraries + [Program(program)];
    ProgramEndsBlank(libraries, program);
    LastIsHighest(full, binaries);
    CompactionKeepsAnswersIff(full);
    TogetherIsTail(full);
    TailMeansBelow(full, binaries);
    if NamedBelowBlank(binaries) {
      BelowMeansTail(full, binaries);
    }
  }

  lemma OneRecord(prior: Option<string>, info: LibInfo, r: Record, b: uintptr)
    ensures FinalName(prior, info, [r], b) ==
            if Concerns(info, r, b) then Some(Shorter(prior, Candidate(r.text))) else prior
  {
    assert [r][..0] == [];
    assert FinalName(prior, info, [r][..0], b) == prior;
  }

  lemma TwoBinaries(x: Binary, y: Binary, b: uintptr)
    ensures NameAt([x] + [y], b) == Merged(Merged(None, x, b), y, b)
  {
    var both := [x] + [y];
    assert both[..1] == [x];
    assert NameAt([x][..0], b) == None;
    assert NameAt([x], b) == Merged(None, x, b);
  }

  const LIBRARY := Binary(LibInfo(0x1000, 0x2000, 0), Some([Record(0x1800, "f")]))
  const PROGRAM := Program(Some([Record(0x3000, "g")]))

  /** One library below one function of the program is enough to change answers. */
  lemma LibraryBelowProgram(full: Table)
    requires Loaded(full, [LIBRARY] + [PROGRAM])
    ensures !AnswersKept(full)
  {
    var f, g := Record(0x1800, "f"), Record(0x3000, "g");
    TwoBinaries(LIBRARY, PROGRAM, 0x2000);
    OneRecord(Some(""), PROGRAM.info, g, 0x2000);
    assert NameAt([LIBRARY] + [PROGRAM], 0x2000) == Some("");
    TwoBinaries(LIBRARY, PROGRAM, 0x3000);
    OneRecord(None, LIBRARY.info, f, 0x3000);
    OneRecord(None, PROGRAM.info, g, 0x3000);
    assert Candidate("g") == "g";
    assert IsNamed(NameAt([LIBRARY] + [PROGRAM], 0x3000));
    LoadedAnswersKeptIff([LIBRARY], Some([g]), full);
  }
}
