/** The /flags page (melon/builtin/flags_service.cc): which flags are listed, and HTML escaping of values. */
module Flags {
  import opened Wildcard

  // ----- The constraint: names and wildcards separated by ',' or ';'

  predicate IsSeparator(c: char) {
    c == ',' || c == ';'
  }

  /** Where the field that starts at i ends: at the next separator or the end of s. */
  function FieldEnd(s: string, i: nat): (e: nat)
    requires i <= |s|
    ensures i <= e <= |s| && (i < |s| && !IsSeparator(s[i]) ==> i < e)
    decreases |s| - i
  {
    if i == |s| || IsSeparator(s[i]) then i else FieldEnd(s, i + 1)
  }

  /** The non-empty fields between separators, from position i on. */
  function FieldsFrom(s: string, i: nat): seq<string>
    requires i <= |s|
    decreases |s| - i
  {
    if i == |s| then []
    else if IsSeparator(s[i]) then FieldsFrom(s, i + 1)
    else [s[i..FieldEnd(s, i)]] + FieldsFrom(s, FieldEnd(s, i))
  }

  function Fields(s: string): seq<string> {
    FieldsFrom(s, 0)
  }

  /** s[i..j] is not empty, has no ',' or ';' inside, and has one, or an end of s, on either side. */
  ghost predicate IsField(s: string, i: int, j: int) {
    && 0 <= i < j <= |s|
    && (forall x :: i <= x < j ==> s[x] != ',' && s[x] != ';')
    && (i == 0 || s[i - 1] == ',' || s[i - 1] == ';')
    && (j == |s| || s[j] == ',' || s[j] == ';')
  }

  lemma {:induction false} FieldEndIs(s: string, i: nat)
    requires i <= |s|
    ensures var e := FieldEnd(s, i);
            (forall x :: i <= x < e ==> s[x] != ',' && s[x] != ';') && (e == |s| || s[e] == ',' || s[e] == ';')
    decreases |s| - i
  {
    if i < |s| && !IsSeparator(s[i]) {
      FieldEndIs(s, i + 1);
    }
  }

  /** From a position where a field may start. */
  lemma {:induction false} FieldsFromAre(s: string, p: nat, f: string)
    requires p <= |s| && (p == 0 || s[p - 1] == ',' || s[p - 1] == ';' || p == |s| || s[p] == ',' || s[p] == ';')
    ensures f in FieldsFrom(s, p) <==> exists i, j :: p <= i && IsField(s, i, j) && s[i..j] == f
    decreases |s| - p
  {
    if p < |s| {
      if s[p] == ',' || s[p] == ';' {
        FieldsFromAre(s, p + 1, f);
      } else {
        var e := FieldEnd(s, p);
        FieldEndIs(s, p);
        assert IsField(s, p, e);
        FieldsFromAre(s, e, f);
      }
    }
  }

  /** The fields are exactly the non-empty stretches between ',' and ';'. */
  lemma FieldsAre(s: string, f: string)
    ensures f in Fields(s) <==> exists i, j :: IsField(s, i, j) && s[i..j] == f
  {
    FieldsFromAre(s, 0, f);
  }

  lemma {:induction false} FieldEndAt(s: string, i: nat, e: nat)
    requires i <= e <= |s| && (forall x :: i <= x < e ==> s[x] != ',' && s[x] != ';')
    requires e == |s| || s[e] == ',' || s[e] == ';'
    ensures FieldEnd(s, i) == e
    decreases e - i
  {
    if i < e {
      FieldEndAt(s, i + 1, e);
    }
  }

  /** Both separators separate. */
  lemma TwoFields(a: string, separator: char, b: string)
    requires a != "" && b != "" && (separator == ',' || separator == ';')
    requires ',' !in a && ';' !in a && ',' !in b && ';' !in b
    ensures Fields(a + [separator] + b) == [a, b]
  {
    var s, n := a + [separator] + b, |a|;
    assert forall x :: 0 <= x < n ==> s[x] == a[x] && a[x] in a;
    assert forall x :: n < x < |s| ==> s[x] == b[x - n - 1] && b[x - n - 1] in b;
    FieldEndAt(s, 0, n);
    FieldEndAt(s, n + 1, |s|);
    assert s[0..n] == a && s[n + 1..|s|] == b;
    assert FieldsFrom(s, n + 1) == [b] + FieldsFrom(s, |s|);
    assert FieldsFrom(s, n) == FieldsFrom(s, n + 1);
  }

  predicate IsWildcard(field: string) {
    '$' in field || '*' in field
  }

  /** A flag is wanted when there is no constraint or some field, as a pattern, matches its name. */
  ghost predicate Wanted(constraint: string, name: string) {
    constraint == "" || exists f :: f in Fields(constraint) && Matches(f, name)
  }

  /** In terms of the characters of the constraint. */
  lemma WantedIff(constraint: string, name: string)
    ensures Wanted(constraint, name) <==>
            constraint == "" || exists i, j :: IsField(constraint, i, j) && Matches(constraint[i..j], name)
  {
    forall i, j | IsField(constraint, i, j) ensures constraint[i..j] in Fields(constraint) {
      FieldsAre(constraint, constraint[i..j]);
    }
    forall f | f in Fields(constraint) ensures exists i, j :: IsField(constraint, i, j) && constraint[i..j] == f {
      FieldsAre(constraint, f);
    }
  }

  /** Splitting the fields into patterns and exact names. */
  ghost predicate IsSplit(fields: seq<string>, wildcards: seq<string>, exact: set<string>) {
    && (forall w :: w in wildcards <==> w in fields && ('$' in w || '*' in w))
    && (forall e :: e in exact <==> e in fields && '$' !in e && '*' !in e)
  }

  /** The StringMultiSplitter loop: head and tail move over the constraint. */
  method ParseConstraint(constraint: string) returns (wildcards: seq<string>, exact: set<string>)
    ensures IsSplit(Fields(constraint), wildcards, exact)
  {
    wildcards, exact := [], {};
    var head := 0;
    ghost var done: seq<string> := [];
    while true
      invariant head <= |constraint|
      invariant Fields(constraint) == done + FieldsFrom(constraint, head)
      invariant IsSplit(done, wildcards, exact)
      decreases |constraint| - head
    {
      while head < |constraint| && IsSeparator(constraint[head])
        invariant head <= |constraint|
        invariant Fields(constraint) == done + FieldsFrom(constraint, head)
      {
        head := head + 1;
      }
      if head == |constraint| {
        break;
      }
      var tail := head;
      while tail < |constraint| && !IsSeparator(constraint[tail])
        invariant head <= tail <= |constraint| && FieldEnd(constraint, tail) == FieldEnd(constraint, head)
      {
        tail := tail + 1;
      }
      var name := constraint[head..tail];
      if IsWildcard(name) {
        wildcards := wildcards + [name];
      } else {
        exact := exact + {name};
      }
      done, head := done + [name], tail;
    }
    assert done + [] == done;
  }

  /** Exact names plus patterns select what matching every field as a pattern selects. */
  lemma SplitSelectsSame(fields: seq<string>, wildcards: seq<string>, exact: set<string>, name: string)
    requires IsSplit(fields, wildcards, exact)
    ensures (exists f :: f in fields && Matches(f, name)) <==>
            name in exact || exists w :: w in wildcards && Matches(w, name)
  {
    forall f | f in fields && !IsWildcard(f) ensures Matches(f, name) <==> f == name {
      LiteralMatchesItself(f, name);
    }
  }

  // ----- The two listing paths

  datatype Flag = Flag(name: string, value: string)

  ghost predicate UniqueNames(flags: seq<Flag>) {
    forall i, j :: 0 <= i < j < |flags| ==> flags[i].name != flags[j].name
  }

  /** The listing shows exactly the wanted flags, each once. */
  ghost predicate Lists(flags: seq<Flag>, constraint: string, listed: seq<Flag>) {
    && UniqueNames(listed)
    && (forall f :: f in listed <==> f in flags && Wanted(constraint, f.name))
  }

  /** GetCommandLineFlagInfo: the flag of that name. */
  method Lookup(flags: seq<Flag>, name: string) returns (found: bool, flag: Flag)
    ensures found ==> flag in flags && flag.name == name
    ensures !found ==> forall f :: f in flags ==> f.name != name
  {
    flag := Flag("", "");
    for i := 0 to |flags|
      invariant forall j :: 0 <= j < i ==> flags[j].name != name
    {
      if flags[i].name == name {
        return true, flags[i];
      }
    }
    return false, flag;
  }

  /** The page for a request without ?setvalue: the exact-only path and the scanning path list the same flags. */
  method ListFlags(flags: seq<Flag>, constraint: string) returns (listed: seq<Flag>)
    requires UniqueNames(flags)
    ensures Lists(flags, constraint, listed)
  {
    var wildcards: seq<string>, exact: set<string> := [], {};
    if constraint != "" {
      wildcards, exact := ParseConstraint(constraint);
    }
    if constraint != "" && wildcards == [] {
      listed := ListExact(flags, exact);
      forall f | f in flags ensures Wanted(constraint, f.name) <==> f.name in exact {
        SplitSelectsSame(Fields(constraint), wildcards, exact, f.name);
      }
    } else {
      listed := ListScan(flags, constraint, wildcards, exact);
    }
  }

  method ListExact(flags: seq<Flag>, exact: set<string>) returns (listed: seq<Flag>)
    requires UniqueNames(flags)
    ensures UniqueNames(listed)
    ensures forall f :: f in listed <==> f in flags && f.name in exact
  {
    listed := [];
    var rest := exact;
    while rest != {}
      invariant rest <= exact
      invariant UniqueNames(listed)
      invariant forall f :: f in listed <==> f in flags && f.name in exact - rest
      decreases rest
    {
      var name :| name in rest;
      rest := rest - {name};
      var found, info := Lookup(flags, name);
      if found {
        OnlyOne(flags, info);
        listed := listed + [info];
      }
    }
  }

  lemma OnlyOne(flags: seq<Flag>, f: Flag)
    requires UniqueNames(flags) && f in flags
    ensures forall g :: g in flags && g.name == f.name ==> g == f
  {
  }

  method ListScan(flags: seq<Flag>, constraint: string, wildcards: seq<string>, exact: set<string>)
    returns (listed: seq<Flag>)
    requires UniqueNames(flags)
    requires constraint != "" ==> IsSplit(Fields(constraint), wildcards, exact)
    ensures Lists(flags, constraint, listed)
  {
    listed := [];
    for i := 0 to |flags|
      invariant UniqueNames(listed)
      invariant forall f :: f in listed ==> f in flags[..i]
      invariant forall f :: f in flags[..i] ==> (f in listed <==> Wanted(constraint, f.name))
    {
      var f := flags[i];
      assert flags[..i + 1] == flags[..i] + [f];
      if constraint != "" {
        SplitSelectsSame(Fields(constraint), wildcards, exact, f.name);
        if f.name !in exact {
          var any := MatchAnyWildcard(f.name, wildcards);
          if !any {
            continue;
          }
        }
      }
      listed := listed + [f];
    }
    assert flags[..|flags|] == flags;
  }

  // ----- HTML escaping

  function EscapeChar(c: char): string {
    if c == '<' then "&lt;" else if c == '>' then "&gt;" else if c == '&' then "&amp;" else [c]
  }

  function Escape(s: string): string {
    if s == "" then "" else EscapeChar(s[0]) + Escape(s[1..])
  }

  function Unescape(s: string): string
    decreases |s|
  {
    if s == "" then ""
    else if "&lt;" <= s then "<" + Unescape(s[4..])
    else if "&gt;" <= s then ">" + Unescape(s[4..])
    else if "&amp;" <= s then "&" + Unescape(s[5..])
    else [s[0]] + Unescape(s[1..])
  }

  predicate IsSpecial(c: char) {
    c == '<' || c == '>' || c == '&'
  }

  lemma {:induction false} EscapeConcat(a: string, b: string)
    ensures Escape(a + b) == Escape(a) + Escape(b)
  {
    if a == "" {
      assert a + b == b;
    } else {
      assert (a + b)[1..] == a[1..] + b;
      EscapeConcat(a[1..], b);
    }
  }

  /** std::string::find_first_of("<>&", from), |s| for npos. */
  method FindSpecial(s: string, start: nat) returns (k: nat)
    requires start <= |s|
    ensures start <= k <= |s| && (k < |s| ==> IsSpecial(s[k]))
    ensures forall i :: start <= i < k ==> !IsSpecial(s[i])
  {
    k := start;
    while k < |s| && !IsSpecial(s[k])
      invariant start <= k <= |s|
      invariant forall i :: start <= i < k ==> !IsSpecial(s[i])
    {
      k := k + 1;
    }
  }

  method HtmlReplace(s: string) returns (r: string)
    ensures r == Escape(s)
  {
    var b, lastPos := "", 0;
    while true
      invariant lastPos <= |s| && b == Escape(s[..lastPos]) && (b == "" ==> lastPos == 0)
      decreases |s| - lastPos
    {
      var newPos := FindSpecial(s, lastPos);
      EscapeStretch(s, lastPos, newPos);
      if newPos == |s| {
        assert s[..newPos] == s;
        if b == "" {
          return s;
        }
        return b + s[lastPos..];
      }
      EscapeNext(s, newPos);
      b := b + s[lastPos..newPos];
      b := b + EscapeChar(s[newPos]);
      lastPos := newPos + 1;
    }
  }

  lemma {:induction false} EscapeStretch(s: string, a: nat, k: nat)
    requires a <= k <= |s| && forall i :: a <= i < k ==> !IsSpecial(s[i])
    ensures Escape(s[..k]) == Escape(s[..a]) + s[a..k]
    decreases k
  {
    if a == k {
      assert Escape(s[..a]) + s[a..k] == Escape(s[..a]);
    } else {
      EscapeStretch(s, a, k - 1);
      EscapePlain(s, k - 1);
      StretchNext(Escape(s[..a]), s, a, k - 1);
    }
  }

  lemma EscapePlain(s: string, k: nat)
    requires k < |s| && !IsSpecial(s[k])
    ensures Escape(s[..k + 1]) == Escape(s[..k]) + [s[k]]
  {
    EscapeNext(s, k);
  }

  lemma StretchNext(e: string, s: string, a: nat, k: nat)
    requires a <= k < |s|
    ensures e + s[a..k] + [s[k]] == e + s[a..k + 1]
  {
  }

  lemma EscapeNext(s: string, k: nat)
    requires k < |s|
    ensures Escape(s[..k + 1]) == Escape(s[..k]) + EscapeChar(s[k])
  {
    EscapeConcat(s[..k], [s[k]]);
    EscapeSingle(s[k]);
    assert s[..k + 1] == s[..k] + [s[k]];
  }

  lemma EscapeSingle(c: char)
    ensures Escape([c]) == EscapeChar(c)
  {
  }

  lemma UnescapeFirst(c: char, t: string)
    ensures Unescape(EscapeChar(c) + t) == [c] + Unescape(t)
  {
    var s := EscapeChar(c) + t;
    if c == '<' {
      assert "&lt;" <= s && s[4..] == t;
    } else if c == '>' {
      assert s[1] == 'g' && "&lt;"[1] == 'l';
      assert !("&lt;" <= s) && "&gt;" <= s && s[4..] == t;
    } else if c == '&' {
      assert s[1] == 'a' && "&lt;"[1] == 'l' && "&gt;"[1] == 'g';
      assert !("&lt;" <= s) && !("&gt;" <= s) && "&amp;" <= s && s[5..] == t;
    } else {
      assert s[0] == c && s[1..] == t;
      assert "&lt;"[0] == '&' && "&gt;"[0] == '&' && "&amp;"[0] == '&';
      assert !("&lt;" <= s) && !("&gt;" <= s) && !("&amp;" <= s);
    }
  }

  /** What escaping does to each of the three characters, wherever it stands, */
  lemma SpecialsAreEscaped(a: string, b: string)
    ensures Escape(a + "<" + b) == Escape(a) + "&lt;" + Escape(b)
    ensures Escape(a + ">" + b) == Escape(a) + "&gt;" + Escape(b)
    ensures Escape(a + "&" + b) == Escape(a) + "&amp;" + Escape(b)
  {
    EscapeAround(a, '<', b);
    EscapeAround(a, '>', b);
    EscapeAround(a, '&', b);
  }

  lemma EscapeAround(a: string, c: char, b: string)
    ensures Escape(a + [c] + b) == Escape(a) + EscapeChar(c) + Escape(b)
  {
    EscapeConcat(a + [c], b);
    EscapeConcat(a, [c]);
    EscapeSingle(c);
  }

  /** and that it leaves all others. */
  lemma OthersAreKept(s: string)
    requires '<' !in s && '>' !in s && '&' !in s
    ensures Escape(s) == s
  {
    EscapeStretch(s, 0, |s|);
    assert s[..0] == "" && s[..|s|] == s && s[0..|s|] == s;
  }

  /** Escaping loses nothing. */
  lemma {:induction false} EscapeRoundTrip(s: string)
    ensures Unescape(Escape(s)) == s
  {
    if s != "" {
      EscapeRoundTrip(s[1..]);
      UnescapeFirst(s[0], Escape(s[1..]));
    }
  }

  /** Escaped text contains no markup brackets. */
  lemma {:induction false} EscapedHasNoBrackets(s: string)
    ensures '<' !in Escape(s) && '>' !in Escape(s)
  {
    if s != "" {
      EscapedHasNoBrackets(s[1..]);
    }
  }
}
