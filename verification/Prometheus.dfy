/**
  The Prometheus dumper (melon/builtin/prometheus_metrics_service.cc): turn a
  stream of exposed variables, sorted by name, into gauges and latency summaries.

  A LatencyRecorder with prefix P exposes P_count, P_latency, P_latency_80, ... and
  P_max_latency. The dumper gathers them per prefix and writes one summary when it
  sees P_max_latency, relying on that name being the last of the group.
*/
module Prometheus {
  import opened Wrappers
  import opened Decimal

  /** One exposed variable. */
  datatype Item = Item(name: string, desc: string)

  /** The percentile flags (validated to lie in 1..99) and the prefix of server variables. */
  datatype Config = Config(p1: nat, p2: nat, p3: nat, serverPrefix: string)

  const NPERCENTILES := 6
  const MAX_LATENCY := 5
  const AVERAGE := 6
  const COUNT := 7
  const NSLOTS := 8

  /** The suffixes, in the order the code tries them. */
  function Suffix(cfg: Config, k: nat): string
    requires k < NSLOTS
  {
    if k == 0 then "_latency_" + Digits(cfg.p1)
    else if k == 1 then "_latency_" + Digits(cfg.p2)
    else if k == 2 then "_latency_" + Digits(cfg.p3)
    else if k == 3 then "_latency_999"
    else if k == 4 then "_latency_9999"
    else if k == 5 then "_max_latency"
    else if k == 6 then "_latency"
    else "_count"
  }

  predicate EndsWith(s: string, suffix: string) {
    |suffix| <= |s| && s[|s| - |suffix|..] == suffix
  }

  lemma EndsWithIs(s: string, suffix: string)
    ensures EndsWith(s, suffix) <==> exists p :: s == p + suffix
  {
    if EndsWith(s, suffix) {
      assert s == s[..|s| - |suffix|] + suffix;
    }
  }

  function Suffixes(cfg: Config): (r: seq<string>)
    ensures |r| == NSLOTS && forall k :: 0 <= k < NSLOTS ==> r[k] == Suffix(cfg, k)
  {
    seq(NSLOTS, k requires 0 <= k < NSLOTS => Suffix(cfg, k))
  }

  /** The position of the first suffix that fits, or their number. */
  function FirstFitting(name: string, suffixes: seq<string>): (k: nat)
    ensures k <= |suffixes| && (k < |suffixes| ==> EndsWith(name, suffixes[k]))
    ensures forall j :: 0 <= j < k ==> !EndsWith(name, suffixes[j])
  {
    if suffixes == [] || EndsWith(name, suffixes[0]) then 0 else 1 + FirstFitting(name, suffixes[1..])
  }

  /** A name split at the first suffix that fits, with the position of that suffix. */
  function Classify(cfg: Config, name: string): (r: Option<(string, nat)>)
    ensures r.Some? ==> r.value.1 < NSLOTS && name == r.value.0 + Suffix(cfg, r.value.1)
  {
    var k := FirstFitting(name, Suffixes(cfg));
    if k == NSLOTS then None else Some((name[..|name| - |Suffix(cfg, k)|], k))
  }

  /** What the text of a string variable starts with. */
  const QUOTE := '\"'

  predicate IsString(desc: string) {
    desc != "" && desc[0] == '"'
  }

  /** Only numeric variables of the server are looked at for latency suffixes. */
  predicate Visible(cfg: Config, item: Item) {
    !IsString(item.desc) && cfg.serverPrefix <= item.name
  }

  /** The group and slot a variable contributes to, if any. */
  function Key(cfg: Config, item: Item): (r: Option<(string, nat)>)
    ensures r.Some? ==> r.value.1 < NSLOTS && item.name == r.value.0 + Suffix(cfg, r.value.1)
  {
    if Visible(cfg, item) then Classify(cfg, item.name) else None
  }

  /** One text for each of the six latency names. */
  type Percentiles = texts: seq<string> | |texts| == NPERCENTILES witness ["", "", "", "", "", ""]

  datatype SummaryItems = SummaryItems(percentiles: Percentiles, avg: int64, count: int64, metricName: string)

  const EMPTY := SummaryItems(["", "", "", "", "", ""], 0, 0, "")

  type Groups = map<string, SummaryItems>

  function GroupOf(m: Groups, p: string): SummaryItems {
    if p in m then m[p] else EMPTY
  }

  datatype Output =
    | Gauge(metricsName: string, name: string, desc: string)
    | Summary(items: SummaryItems)

  /** The name up to a label list. */
  function MetricsName(name: string): (r: string)
    ensures r <= name && '{' !in r && (r == name || name[|r|] == '{')
  {
    if name == "" || name[0] == '{' then "" else [name[0]] + MetricsName(name[1..])
  }

  // ----- The dumper, one item at a time

  function Recorded(si: SummaryItems, p: string, slot: nat, desc: string): SummaryItems
    requires slot < NSLOTS
  {
    if slot == AVERAGE then si.(avg := Strtoll(desc))
    else if slot == COUNT then si.(count := Strtoll(desc))
    else if slot == MAX_LATENCY then si.(percentiles := si.percentiles[slot := desc], metricName := p)
    else si.(percentiles := si.percentiles[slot := desc])
  }

  function Absorb(cfg: Config, m: Groups, item: Item): Groups {
    match Key(cfg, item)
    case None => m
    case Some((p, slot)) => m[p := Recorded(GroupOf(m, p), p, slot, item.desc)]
  }

  /** What the dumper writes for an item once the groups are up to date. */
  function Emitted(cfg: Config, m: Groups, item: Item): seq<Output> {
    if IsString(item.desc) then []
    else
      match Key(cfg, item)
      case None => [Gauge(MetricsName(item.name), item.name, item.desc)]
      case Some((p, _)) => if GroupOf(m, p).metricName == "" then [] else [Summary(GroupOf(m, p))]
  }

  function GroupsAfter(cfg: Config, items: seq<Item>): Groups {
    if items == [] then map[] else Absorb(cfg, GroupsAfter(cfg, items[..|items| - 1]), items[|items| - 1])
  }

  /** What the dumper writes at item k of a stream. */
  function OutputAt(cfg: Config, items: seq<Item>, k: nat): seq<Output>
    requires k < |items|
  {
    Emitted(cfg, GroupsAfter(cfg, items[..k + 1]), items[k])
  }

  /** What is written at each item. */
  function Outputs(cfg: Config, items: seq<Item>): (outs: seq<seq<Output>>)
    ensures |outs| == |items| && forall k :: 0 <= k < |items| ==> outs[k] == OutputAt(cfg, items, k)
  {
    seq(|items|, k requires 0 <= k < |items| => OutputAt(cfg, items, k))
  }

  function Joined(outs: seq<seq<Output>>): seq<Output> {
    if outs == [] then [] else Joined(outs[..|outs| - 1]) + outs[|outs| - 1]
  }

  lemma JoinedNext(outs: seq<seq<Output>>, k: nat)
    requires k < |outs|
    ensures Joined(outs[..k + 1]) == Joined(outs[..k]) + outs[k]
  {
    assert outs[..k + 1][..k] == outs[..k];
  }

  /** What the dumper writes for a stream. */
  function OutputOf(cfg: Config, items: seq<Item>): seq<Output> {
    Joined(Outputs(cfg, items))
  }

  /** Try the suffixes in order; NSLOTS if none fits. */
  method MatchSuffix(cfg: Config, name: string) returns (k: nat)
    ensures k <= NSLOTS && (k < NSLOTS ==> EndsWith(name, Suffix(cfg, k)))
    ensures forall j :: 0 <= j < k ==> !EndsWith(name, Suffix(cfg, j))
  {
    k := 0;
    while k < NSLOTS && !EndsWith(name, Suffix(cfg, k))
      invariant k <= NSLOTS
      invariant forall j :: 0 <= j < k ==> !EndsWith(name, Suffix(cfg, j))
    {
      k := k + 1;
    }
  }

  lemma FirstFittingIs(name: string, suffixes: seq<string>, k: nat)
    requires k <= |suffixes| && (k < |suffixes| ==> EndsWith(name, suffixes[k]))
    requires forall j :: 0 <= j < k ==> !EndsWith(name, suffixes[j])
    ensures FirstFitting(name, suffixes) == k
  {
  }

  lemma FirstFit(cfg: Config, name: string, k: nat)
    requires k <= NSLOTS && (k < NSLOTS ==> EndsWith(name, Suffix(cfg, k)))
    requires forall j :: 0 <= j < k ==> !EndsWith(name, Suffix(cfg, j))
    ensures Classify(cfg, name) == if k == NSLOTS then None else Some((name[..|name| - |Suffix(cfg, k)|], k))
  {
    FirstFittingIs(name, Suffixes(cfg), k);
  }

  class Dumper {
    const cfg: Config
    var groups: Groups
    var os: seq<Output>

    constructor (cfg: Config)
      ensures this.cfg == cfg && groups == map[] && os == []
    {
      this.cfg := cfg;
      groups, os := map[], [];
    }

    /** Record the item in its group; returns the group's prefix, or None. */
    method ProcessLatencyRecorderSuffix(name: string, desc: string) returns (group: Option<string>)
      requires Visible(cfg, Item(name, desc))
      modifies this`groups
      ensures groups == Absorb(cfg, old(groups), Item(name, desc))
      ensures group == var key := Key(cfg, Item(name, desc)); if key.Some? then Some(key.value.0) else None
    {
      var i := MatchSuffix(cfg, name);
      FirstFit(cfg, name, i);
      if i == NSLOTS {
        return None;
      }
      var p := name[..|name| - |Suffix(cfg, i)|];
      assert Key(cfg, Item(name, desc)) == Some((p, i));
      var si := GroupOf(groups, p);
      if i < NPERCENTILES {
        si := si.(percentiles := si.percentiles[i := desc]);
        if i == NPERCENTILES - 1 {
          si := si.(metricName := p);
        }
      } else if i == AVERAGE {
        si := si.(avg := Strtoll(desc));
      } else {
        si := si.(count := Strtoll(desc));
      }
      assert si == Recorded(GroupOf(groups, p), p, i, desc);
      groups := groups[p := si];
      group := Some(p);
    }

    method Dump(name: string, desc: string)
      modifies this
      ensures groups == Absorb(cfg, old(groups), Item(name, desc))
      ensures os == old(os) + Emitted(cfg, groups, Item(name, desc))
    {
      if IsString(desc) {
        return;
      }
      if cfg.serverPrefix <= name {
        var group := ProcessLatencyRecorderSuffix(name, desc);
        if group.Some? {
          if groups[group.value].metricName != "" {
            os := os + [Summary(groups[group.value])];
          }
          return;
        }
      }
      os := os + [Gauge(MetricsName(name), name, desc)];
    }
  }

  lemma GroupsNext(cfg: Config, items: seq<Item>, k: nat)
    requires k < |items|
    ensures GroupsAfter(cfg, items[..k + 1]) == Absorb(cfg, GroupsAfter(cfg, items[..k]), items[k])
  {
    assert items[..k + 1][..k] == items[..k];
  }

  /** Dump a whole stream. */
  method DumpAll(cfg: Config, items: seq<Item>) returns (os: seq<Output>)
    ensures os == OutputOf(cfg, items)
  {
    var dumper := new Dumper(cfg);
    ghost var outs := Outputs(cfg, items);
    for k := 0 to |items|
      invariant dumper.cfg == cfg && fresh(dumper)
      invariant dumper.groups == GroupsAfter(cfg, items[..k])
      invariant dumper.os == Joined(outs[..k])
    {
      GroupsNext(cfg, items, k);
      JoinedNext(outs, k);
      dumper.Dump(items[k].name, items[k].desc);
    }
    assert outs[..|items|] == outs;
    os := dumper.os;
  }

  // ----- The reference: what a stream holds for a prefix

  type GroupSlot = (string, nat)

  /** The group and slot of each item. */
  function Keys(cfg: Config, items: seq<Item>): (ks: seq<Option<GroupSlot>>)
    ensures |ks| == |items| && forall i :: 0 <= i < |items| ==> ks[i] == Key(cfg, items[i])
  {
    if items == [] then [] else Keys(cfg, items[..|items| - 1]) + [Key(cfg, items[|items| - 1])]
  }

  /** Where a group and slot last occur, -1 if nowhere. */
  function Latest(ks: seq<Option<GroupSlot>>, key: GroupSlot): (i: int)
    ensures -1 <= i < |ks| && (i >= 0 ==> ks[i] == Some(key))
    ensures forall j :: i < j < |ks| ==> ks[j] != Some(key)
  {
    if ks == [] then -1
    else if ks[|ks| - 1] == Some(key) then |ks| - 1
    else Latest(ks[..|ks| - 1], key)
  }

  lemma LatestIs(ks: seq<Option<GroupSlot>>, key: GroupSlot, i: int)
    requires -1 <= i < |ks| && (i >= 0 ==> ks[i] == Some(key))
    requires forall j :: i < j < |ks| ==> ks[j] != Some(key)
    ensures Latest(ks, key) == i
  {
  }

  /** The text the stream holds for slot k of prefix p (names are distinct, so at most one item does). */
  function Slot(cfg: Config, items: seq<Item>, p: string, k: nat): Option<string> {
    var i := Latest(Keys(cfg, items), (p, k));
    if i < 0 then None else Some(items[i].desc)
  }

  lemma SlotNext(cfg: Config, items: seq<Item>, p: string, k: nat)
    requires items != []
    ensures Slot(cfg, items, p, k) ==
            if Key(cfg, items[|items| - 1]) == Some((p, k)) then Some(items[|items| - 1].desc)
            else Slot(cfg, items[..|items| - 1], p, k)
  {
    var n := |items| - 1;
    assert Keys(cfg, items)[..n] == Keys(cfg, items[..n]);
  }

  function TextOr(t: Option<string>): string {
    if t.Some? then t.value else ""
  }

  function NumberOr(t: Option<string>): int64 {
    if t.Some? then Strtoll(t.value) else 0
  }

  /** A summary from what is known for each slot, with defaults for what is not. */
  function Assembled(texts: seq<Option<string>>, p: string): SummaryItems
    requires |texts| == NSLOTS
  {
    SummaryItems([TextOr(texts[0]), TextOr(texts[1]), TextOr(texts[2]),
                  TextOr(texts[3]), TextOr(texts[4]), TextOr(texts[5])],
                 NumberOr(texts[AVERAGE]), NumberOr(texts[COUNT]), if texts[MAX_LATENCY].Some? then p else "")
  }

  function SlotTexts(cfg: Config, items: seq<Item>, p: string): (texts: seq<Option<string>>)
    ensures |texts| == NSLOTS && forall k :: 0 <= k < NSLOTS ==> texts[k] == Slot(cfg, items, p, k)
  {
    seq(NSLOTS, k requires k >= 0 => Slot(cfg, items, p, k))
  }

  /** Everything the stream holds for prefix p. */
  function Gathered(cfg: Config, items: seq<Item>, p: string): SummaryItems {
    Assembled(SlotTexts(cfg, items, p), p)
  }

  lemma AssembledUpdate(texts: seq<Option<string>>, p: string, slot: nat, desc: string)
    requires |texts| == NSLOTS && slot < NSLOTS
    ensures Assembled(texts[slot := Some(desc)], p) == Recorded(Assembled(texts, p), p, slot, desc)
  {
    assert slot < NPERCENTILES ==>
      Assembled(texts[slot := Some(desc)], p).percentiles == Assembled(texts, p).percentiles[slot := desc];
  }

  lemma GatheredOther(cfg: Config, items: seq<Item>, p: string)
    requires items != [] && forall slot :: Key(cfg, items[|items| - 1]) != Some((p, slot))
    ensures Gathered(cfg, items, p) == Gathered(cfg, items[..|items| - 1], p)
  {
    var texts := SlotTexts(cfg, items, p);
    forall k | 0 <= k < NSLOTS ensures texts[k] == Slot(cfg, items[..|items| - 1], p, k) {
      SlotNext(cfg, items, p, k);
    }
    assert texts == SlotTexts(cfg, items[..|items| - 1], p);
  }

  lemma GatheredSame(cfg: Config, items: seq<Item>, p: string, slot: nat)
    requires items != [] && Key(cfg, items[|items| - 1]) == Some((p, slot))
    ensures Gathered(cfg, items, p) ==
            Recorded(Gathered(cfg, items[..|items| - 1], p), p, slot, items[|items| - 1].desc)
  {
    var texts, last := SlotTexts(cfg, items[..|items| - 1], p), items[|items| - 1];
    var next := SlotTexts(cfg, items, p);
    forall k | 0 <= k < NSLOTS ensures next[k] == texts[slot := Some(last.desc)][k] {
      SlotNext(cfg, items, p, k);
    }
    assert next == texts[slot := Some(last.desc)];
    AssembledUpdate(texts, p, slot, last.desc);
  }

  lemma {:induction false} GroupsHoldGathered(cfg: Config, items: seq<Item>, p: string)
    ensures GroupOf(GroupsAfter(cfg, items), p) == Gathered(cfg, items, p)
  {
    if items == [] {
      assert EMPTY.percentiles == Gathered(cfg, items, p).percentiles;
    } else {
      GroupsHoldGathered(cfg, items[..|items| - 1], p);
      var key := Key(cfg, items[|items| - 1]);
      if key.Some? && key.value.0 == p {
        GatheredSame(cfg, items, p, key.value.1);
      } else {
        GatheredOther(cfg, items, p);
      }
    }
  }

  /** std::string order. */
  predicate Less(a: string, b: string) {
    b != "" && (a == "" || a[0] < b[0] || (a[0] == b[0] && Less(a[1..], b[1..])))
  }

  lemma {:induction false} LessAfterPrefix(p: string, a: string, b: string)
    ensures Less(p + a, p + b) <==> Less(a, b)
  {
    if p == "" {
      assert p + a == a && p + b == b;
    } else {
      assert (p + a)[1..] == p[1..] + a && (p + b)[1..] == p[1..] + b;
      LessAfterPrefix(p[1..], a, b);
    }
  }

  lemma {:induction false} LessIrreflexive(a: string)
    ensures !Less(a, a)
  {
    if a != "" {
      LessIrreflexive(a[1..]);
    }
  }

  ghost predicate SortedByName(items: seq<Item>) {
    forall i, j :: 0 <= i < j < |items| ==> Less(items[i].name, items[j].name)
  }

  /** No suffix sorts after "_max_latency". */
  lemma MaxLatencyIsLast(cfg: Config, k: nat)
    requires k < NSLOTS
    ensures !Less(Suffix(cfg, MAX_LATENCY), Suffix(cfg, k))
  {
    var max, other := Suffix(cfg, MAX_LATENCY), Suffix(cfg, k);
    if k == MAX_LATENCY {
      LessIrreflexive(max);
    } else {
      assert other[0] == max[0] && max[1] == 'm' && (other[1] == 'l' || other[1] == 'c');
      assert max[1..][0] == 'm' && other[1..][0] == other[1];
    }
  }

  /** In a sorted stream nothing of a group follows its "_max_latency". */
  lemma NothingAfterMax(cfg: Config, items: seq<Item>, j: nat, k: nat, p: string, slot: nat)
    requires SortedByName(items) && j < k < |items|
    requires Key(cfg, items[j]) == Some((p, MAX_LATENCY))
    ensures Key(cfg, items[k]) != Some((p, slot))
  {
    if Key(cfg, items[k]) == Some((p, slot)) {
      LessAfterPrefix(p, Suffix(cfg, MAX_LATENCY), Suffix(cfg, slot));
      MaxLatencyIsLast(cfg, slot);
    }
  }

  lemma SlotAbsent(cfg: Config, items: seq<Item>, p: string, k: nat)
    requires forall i :: 0 <= i < |items| ==> Key(cfg, items[i]) != Some((p, k))
    ensures Slot(cfg, items, p, k) == None
  {
    LatestIs(Keys(cfg, items), (p, k), -1);
  }

  lemma LatestBefore(ks: seq<Option<GroupSlot>>, key: GroupSlot, n: nat)
    requires n <= |ks| && forall j :: n <= j < |ks| ==> ks[j] != Some(key)
    ensures Latest(ks[..n], key) == Latest(ks, key)
  {
    LatestIs(ks[..n], key, Latest(ks, key));
  }

  lemma {:induction false} KeysOfPrefix(cfg: Config, items: seq<Item>, n: nat)
    requires n <= |items|
    ensures Keys(cfg, items[..n]) == Keys(cfg, items)[..n]
  {
  }

  lemma SlotUnaffected(cfg: Config, items: seq<Item>, n: nat, p: string, k: nat)
    requires n <= |items|
    requires forall i :: n <= i < |items| ==> Key(cfg, items[i]) != Some((p, k))
    ensures Slot(cfg, items[..n], p, k) == Slot(cfg, items, p, k)
  {
    KeysOfPrefix(cfg, items, n);
    LatestBefore(Keys(cfg, items), (p, k), n);
  }

  lemma SlotAtMax(cfg: Config, items: seq<Item>, k: nat, p: string, slot: nat)
    requires SortedByName(items) && k < |items| && Key(cfg, items[k]) == Some((p, MAX_LATENCY))
    ensures Slot(cfg, items[..k + 1], p, slot) == Slot(cfg, items, p, slot)
  {
    forall i | k + 1 <= i < |items| ensures Key(cfg, items[i]) != Some((p, slot)) {
      NothingAfterMax(cfg, items, k, i, p, slot);
    }
    SlotUnaffected(cfg, items, k + 1, p, slot);
  }

  lemma GatheredAtMax(cfg: Config, items: seq<Item>, k: nat, p: string)
    requires SortedByName(items) && k < |items| && Key(cfg, items[k]) == Some((p, MAX_LATENCY))
    ensures Gathered(cfg, items[..k + 1], p) == Gathered(cfg, items, p)
  {
    var texts := SlotTexts(cfg, items[..k + 1], p);
    forall slot | 0 <= slot < NSLOTS ensures texts[slot] == Slot(cfg, items, p, slot) {
      SlotAtMax(cfg, items, k, p, slot);
    }
    assert texts == SlotTexts(cfg, items, p);
  }

  lemma OutputOfGroupItem(cfg: Config, items: seq<Item>, k: nat, p: string, slot: nat)
    requires k < |items| && Key(cfg, items[k]) == Some((p, slot))
    ensures var si := Gathered(cfg, items[..k + 1], p);
            OutputAt(cfg, items, k) == if si.metricName == "" then [] else [Summary(si)]
  {
    GroupsHoldGathered(cfg, items[..k + 1], p);
  }

  lemma MaxNotYet(cfg: Config, items: seq<Item>, j: nat, k: nat, p: string, slot: nat)
    requires SortedByName(items) && j <= k < |items|
    requires Key(cfg, items[k]) == Some((p, slot)) && slot != MAX_LATENCY
    ensures Key(cfg, items[j]) != Some((p, MAX_LATENCY))
  {
    if j < k && Key(cfg, items[j]) == Some((p, MAX_LATENCY)) {
      NothingAfterMax(cfg, items, j, k, p, slot);
    }
  }

  lemma NameFromSlot(cfg: Config, items: seq<Item>, p: string)
    ensures Gathered(cfg, items, p).metricName == if Slot(cfg, items, p, MAX_LATENCY).Some? then p else ""
  {
  }

  lemma MaxSlotNotYet(cfg: Config, items: seq<Item>, upTo: seq<Item>, k: nat, p: string, slot: nat)
    requires SortedByName(items) && k < |items| && upTo == items[..k + 1]
    requires Key(cfg, items[k]) == Some((p, slot)) && slot != MAX_LATENCY
    ensures Slot(cfg, upTo, p, MAX_LATENCY) == None
  {
    forall j | 0 <= j < |upTo| ensures Key(cfg, upTo[j]) != Some((p, MAX_LATENCY)) {
      MaxNotYet(cfg, items, j, k, p, slot);
    }
    SlotAbsent(cfg, upTo, p, MAX_LATENCY);
  }

  lemma NamedAtMaxOnly(cfg: Config, items: seq<Item>, k: nat, p: string, slot: nat)
    requires SortedByName(items) && k < |items| && Key(cfg, items[k]) == Some((p, slot))
    ensures Gathered(cfg, items[..k + 1], p).metricName == if slot == MAX_LATENCY then p else ""
  {
    var upTo := items[..k + 1];
    NameFromSlot(cfg, upTo, p);
    if slot == MAX_LATENCY {
      SlotOfLast(cfg, upTo, p, slot);
    } else {
      MaxSlotNotYet(cfg, items, upTo, k, p, slot);
    }
  }

  /**
    For every stream sorted by name: an item of a latency group produces output only
    if it is the group's "_max_latency", and that output is one summary with
    everything the whole stream holds for the group.
  */
  lemma SummaryAtMaxLatency(cfg: Config, items: seq<Item>, k: nat, p: string, slot: nat)
    requires SortedByName(items) && k < |items| && Key(cfg, items[k]) == Some((p, slot))
    ensures OutputAt(cfg, items, k) ==
            if slot == MAX_LATENCY && p != "" then [Summary(Gathered(cfg, items, p))] else []
  {
    OutputOfGroupItem(cfg, items, k, p, slot);
    NamedAtMaxOnly(cfg, items, k, p, slot);
    if slot == MAX_LATENCY {
      GatheredAtMax(cfg, items, k, p);
    }
  }

  lemma SlotOfLast(cfg: Config, items: seq<Item>, p: string, k: nat)
    requires items != [] && Key(cfg, items[|items| - 1]) == Some((p, k))
    ensures Slot(cfg, items, p, k).Some?
  {
  }

  /** A summary for a prefix is written exactly once, at its "_max_latency" item, if it has one. */
  lemma ExactlyOneSummary(cfg: Config, items: seq<Item>, k: nat, si: SummaryItems)
    requires SortedByName(items) && k < |items|
    ensures OutputAt(cfg, items, k) == [Summary(si)] <==>
            si.metricName != "" && Key(cfg, items[k]) == Some((si.metricName, MAX_LATENCY)) &&
            si == Gathered(cfg, items, si.metricName)
    ensures forall j :: 0 <= j < |items| && j != k && Key(cfg, items[k]).Some? ==>
                          Key(cfg, items[j]) != Key(cfg, items[k])
  {
    var key := Key(cfg, items[k]);
    if key.Some? {
      SummaryAtMaxLatency(cfg, items, k, key.value.0, key.value.1);
      if key.value.1 == MAX_LATENCY {
        SlotSome(cfg, items, k, key.value.0, MAX_LATENCY);
      }
      forall j | 0 <= j < |items| && j != k ensures Key(cfg, items[j]) != key {
        OneKey(cfg, items, k, j);
      }
    }
  }

  lemma OneKey(cfg: Config, items: seq<Item>, i: nat, j: nat)
    requires SortedByName(items) && i < |items| && j < |items| && i != j && Key(cfg, items[i]).Some?
    ensures Key(cfg, items[j]) != Key(cfg, items[i])
  {
    LessIrreflexive(items[i].name);
  }

  /** The slot of an item is what the item says. */
  lemma SlotSome(cfg: Config, items: seq<Item>, i: nat, p: string, k: nat)
    requires SortedByName(items) && i < |items| && Key(cfg, items[i]) == Some((p, k))
    ensures Slot(cfg, items, p, k) == Some(items[i].desc)
  {
    forall j | i < j < |items| ensures Key(cfg, items[j]) != Some((p, k)) {
      OneKey(cfg, items, i, j);
    }
    LatestIs(Keys(cfg, items), (p, k), i);
  }

  // ----- Which name lands in which slot

  /** The part of a string after its last underscore. */
  function LastWord(s: string): string {
    if s == "" || s[|s| - 1] == '_' then "" else LastWord(s[..|s| - 1]) + [s[|s| - 1]]
  }

  lemma {:induction false} LastWordIs(a: string, t: string)
    requires '_' !in t
    ensures LastWord(a + "_" + t) == t
  {
    var s := a + "_" + t;
    if t != "" {
      var n := |t| - 1;
      assert t[n] in t && s[..|s| - 1] == a + "_" + t[..n];
      LastWordIs(a, t[..n]);
      assert t == t[..n] + [t[n]];
    }
  }

  lemma {:induction false} DigitsAreDigits(n: nat)
    ensures forall c :: c in Digits(n) ==> IsDigit(c)
  {
    if n >= 10 {
      DigitsAreDigits(n / 10);
    }
  }

  lemma DigitsInjective(a: nat, b: nat)
    requires Digits(a) == Digits(b)
    ensures a == b
  {
    ReadPrinted(a, "");
    ReadPrinted(b, "");
  }

  function Stem(k: nat): string
    requires k < NSLOTS
  {
    if k < MAX_LATENCY then "_latency" else if k == MAX_LATENCY then "_max" else ""
  }

  function Word(cfg: Config, k: nat): string
    requires k < NSLOTS
  {
    if k < MAX_LATENCY then Digits(Percentile(cfg, k)) else if k == COUNT then "count" else "latency"
  }

  function Percentile(cfg: Config, k: nat): nat
    requires k < MAX_LATENCY
  {
    if k == 0 then cfg.p1 else if k == 1 then cfg.p2 else if k == 2 then cfg.p3 else if k == 3 then 999 else 9999
  }

  lemma SuffixParts(cfg: Config, k: nat)
    requires k < NSLOTS
    ensures Suffix(cfg, k) == Stem(k) + "_" + Word(cfg, k)
    ensures '_' !in Word(cfg, k)
  {
    assert Digits(9) == "9" && Digits(99) == "99" && Digits(999) == "999" && Digits(9999) == "9999";
    if k < MAX_LATENCY {
      DigitsAreDigits(Percentile(cfg, k));
      assert "_latency_" == "_latency" + "_";
    }
  }

  /** Two suffixes of one name share their last word. */
  lemma EndsShareWord(cfg: Config, name: string, j: nat)
    requires j < NSLOTS && EndsWith(name, Suffix(cfg, j))
    ensures LastWord(name) == Word(cfg, j)
  {
    SuffixParts(cfg, j);
    var a := name[..|name| - |Suffix(cfg, j)|];
    assert name == (a + Stem(j)) + "_" + Word(cfg, j);
    LastWordIs(a + Stem(j), Word(cfg, j));
  }

  /** What the validators of the percentile flags accept. */
  predicate ValidFlags(cfg: Config) {
    0 < cfg.p1 < 100 && 0 < cfg.p2 < 100 && 0 < cfg.p3 < 100
  }

  /** The first slot with the percentile of slot k: flags may coincide. */
  function FirstAlike(cfg: Config, k: nat): (j: nat)
    requires k < NSLOTS
    ensures j <= k
  {
    if k == 1 && cfg.p2 == cfg.p1 then 0
    else if k == 2 && cfg.p3 == cfg.p1 then 0
    else if k == 2 && cfg.p3 == cfg.p2 then 1
    else k
  }

  lemma WordsDiffer(cfg: Config, j: nat, k: nat)
    requires ValidFlags(cfg) && j < k < NSLOTS && !(j == MAX_LATENCY && k == AVERAGE)
    requires k < MAX_LATENCY ==> Percentile(cfg, j) != Percentile(cfg, k)
    ensures Word(cfg, j) != Word(cfg, k)
  {
    if k < MAX_LATENCY {
      if Word(cfg, j) == Word(cfg, k) {
        DigitsInjective(Percentile(cfg, j), Percentile(cfg, k));
      }
    } else if j < MAX_LATENCY {
      DigitsNonEmpty(Percentile(cfg, j));
    } else {
      assert Word(cfg, j)[0] == 'l' && Word(cfg, k)[0] == 'c';
    }
  }

  /**
    Where the name "P" + suffix k ends up: in its own slot of P; but a percentile
    that is configured twice in the first slot that has it, and "P_latency" for a P
    that ends in "_max" as the maximum of the shorter prefix.
  */
  function Landing(cfg: Config, p: string, k: nat): (string, nat)
    requires k < NSLOTS
  {
    if k == AVERAGE && EndsWith(p, "_max") then (p[..|p| - 4], MAX_LATENCY) else (p, FirstAlike(cfg, k))
  }

  lemma NoEarlierFit(cfg: Config, name: string, k: nat, j: nat)
    requires ValidFlags(cfg) && j < k < NSLOTS && EndsWith(name, Suffix(cfg, k))
    requires FirstAlike(cfg, k) == k && !(j == MAX_LATENCY && k == AVERAGE)
    ensures !EndsWith(name, Suffix(cfg, j))
  {
    EndsShareWord(cfg, name, k);
    WordsDiffer(cfg, j, k);
    if EndsWith(name, Suffix(cfg, j)) {
      EndsShareWord(cfg, name, j);
    }
  }

  lemma LandsInOwnSlot(cfg: Config, p: string, k: nat)
    requires ValidFlags(cfg) && k < NSLOTS && FirstAlike(cfg, k) == k && !(k == AVERAGE && EndsWith(p, "_max"))
    ensures Classify(cfg, p + Suffix(cfg, k)) == Some((p, k))
  {
    var name := p + Suffix(cfg, k);
    assert EndsWith(name, Suffix(cfg, k));
    forall j | 0 <= j < k ensures !EndsWith(name, Suffix(cfg, j)) {
      if j == MAX_LATENCY && k == AVERAGE {
        MaxBeforeAverage(p);
      } else {
        NoEarlierFit(cfg, name, k, j);
      }
    }
    FirstFit(cfg, name, k);
  }

  lemma MaxMoves(p: string)
    requires EndsWith(p, "_max")
    ensures p + "_latency" == p[..|p| - 4] + "_max_latency"
  {
    var short := p[..|p| - 4];
    assert p == short + "_max";
    assert "_max" + "_latency" == "_max_latency";
  }

  /** The average of a prefix that ends in "_max" is the maximum of the shorter prefix. */
  lemma LandsAsMaximum(cfg: Config, p: string, k: nat)
    requires ValidFlags(cfg) && k == AVERAGE && EndsWith(p, "_max")
    ensures Classify(cfg, p + Suffix(cfg, k)) == Some((p[..|p| - 4], MAX_LATENCY))
  {
    var max := MAX_LATENCY;
    var short := p[..|p| - 4];
    assert p + Suffix(cfg, k) == short + Suffix(cfg, max) by {
      MaxMoves(p);
    }
    LandsInOwnSlot(cfg, short, max);
  }

  /** Every name of a latency group, classified. */
  lemma NameLandsInSlot(cfg: Config, p: string, k: nat)
    requires ValidFlags(cfg) && k < NSLOTS
    ensures Classify(cfg, p + Suffix(cfg, k)) == Some(Landing(cfg, p, k))
  {
    if k == AVERAGE && EndsWith(p, "_max") {
      LandsAsMaximum(cfg, p, k);
    } else {
      var j := FirstAlike(cfg, k);
      assert Suffix(cfg, j) == Suffix(cfg, k) && FirstAlike(cfg, j) == j;
      LandsInOwnSlot(cfg, p, j);
    }
  }

  lemma MaxBeforeAverage(p: string)
    ensures EndsWith(p + "_latency", "_max_latency") <==> EndsWith(p, "_max")
  {
    var name := p + "_latency";
    assert "_max_latency" == "_max" + "_latency";
    if |p| >= 4 {
      assert name[|name| - 12..] == p[|p| - 4..] + "_latency";
      if p[|p| - 4..] + "_latency" == "_max" + "_latency" {
        assert p[|p| - 4..] == ("_max" + "_latency")[..4];
      }
    }
  }

  // ----- The summaries, by the names of the variables

  /** The text of the variable of that name, if the stream has it and the dumper looks at it. */
  function Text(cfg: Config, items: seq<Item>, name: string): Option<string> {
    if items == [] then None
    else if Visible(cfg, items[|items| - 1]) && items[|items| - 1].name == name then Some(items[|items| - 1].desc)
    else Text(cfg, items[..|items| - 1], name)
  }

  lemma KeyByName(cfg: Config, item: Item, p: string, k: nat)
    requires ValidFlags(cfg) && k < NSLOTS
    ensures Key(cfg, item) == Some((p, k)) <==>
            Visible(cfg, item) && item.name == p + Suffix(cfg, k) && Landing(cfg, p, k) == (p, k)
  {
    NameLandsInSlot(cfg, p, k);
  }

  lemma {:induction false} SlotIsText(cfg: Config, items: seq<Item>, p: string, k: nat)
    requires ValidFlags(cfg) && k < NSLOTS
    ensures Slot(cfg, items, p, k) ==
            if Landing(cfg, p, k) == (p, k) then Text(cfg, items, p + Suffix(cfg, k)) else None
  {
    if items != [] {
      SlotIsText(cfg, items[..|items| - 1], p, k);
      SlotNext(cfg, items, p, k);
      KeyByName(cfg, items[|items| - 1], p, k);
    }
  }

  /** A name that lands in its own slot of the prefix. */
  predicate OwnSlot(cfg: Config, p: string, k: nat)
    requires k < NSLOTS
  {
    if k == AVERAGE then !EndsWith(p, "_max") else FirstAlike(cfg, k) == k
  }

  function OwnText(cfg: Config, items: seq<Item>, p: string, k: nat): Option<string>
    requires k < NSLOTS
  {
    if OwnSlot(cfg, p, k) then Text(cfg, items, p + Suffix(cfg, k)) else None
  }

  function OwnTexts(cfg: Config, items: seq<Item>, p: string): (texts: seq<Option<string>>)
    ensures |texts| == NSLOTS && forall k :: 0 <= k < NSLOTS ==> texts[k] == OwnText(cfg, items, p, k)
  {
    seq(NSLOTS, k requires 0 <= k < NSLOTS => OwnText(cfg, items, p, k))
  }

  /** The summary of prefix p: each entry the text of the variable of that name, if it lands in its own slot. */
  function SummaryOf(cfg: Config, items: seq<Item>, p: string): SummaryItems {
    Assembled(OwnTexts(cfg, items, p), p)
  }

  lemma GatheredByNames(cfg: Config, items: seq<Item>, p: string)
    requires ValidFlags(cfg)
    ensures Gathered(cfg, items, p) == SummaryOf(cfg, items, p)
  {
    var texts := SlotTexts(cfg, items, p);
    forall k | 0 <= k < NSLOTS ensures texts[k] == OwnText(cfg, items, p, k) {
      SlotIsText(cfg, items, p, k);
    }
    assert texts == OwnTexts(cfg, items, p);
  }

  /** The summaries of that name, in the order written. */
  function SummariesNamed(os: seq<Output>, p: string): seq<SummaryItems> {
    if os == [] then []
    else
      var last := os[|os| - 1];
      SummariesNamed(os[..|os| - 1], p) +
      if last.Summary? && last.items.metricName == p then [last.items] else []
  }

  lemma {:induction false} SummariesConcat(a: seq<Output>, b: seq<Output>, p: string)
    ensures SummariesNamed(a + b, p) == SummariesNamed(a, p) + SummariesNamed(b, p)
    decreases |b|
  {
    if b == [] {
      assert a + b == a;
    } else {
      var n := |b| - 1;
      assert (a + b)[..|a| + n] == a + b[..n];
      SummariesConcat(a, b[..n], p);
    }
  }

  /** What one item adds: the summary of p at its "_max_latency", otherwise none. */
  lemma SummariesAt(cfg: Config, items: seq<Item>, k: nat, p: string)
    requires SortedByName(items) && k < |items|
    ensures SummariesNamed(OutputAt(cfg, items, k), p) ==
            if p != "" && Key(cfg, items[k]) == Some((p, MAX_LATENCY)) then [Gathered(cfg, items, p)] else []
  {
    var key := Key(cfg, items[k]);
    if key.Some? {
      SummaryAtMaxLatency(cfg, items, k, key.value.0, key.value.1);
      if key.value.1 == MAX_LATENCY {
        SlotSome(cfg, items, k, key.value.0, MAX_LATENCY);
      }
    }
  }

  lemma {:induction false} NoneNamed(outs: seq<seq<Output>>, p: string)
    requires forall j :: 0 <= j < |outs| ==> SummariesNamed(outs[j], p) == []
    ensures SummariesNamed(Joined(outs), p) == []
  {
    if outs != [] {
      var n := |outs| - 1;
      NoneNamed(outs[..n], p);
      SummariesConcat(Joined(outs[..n]), outs[n], p);
    }
  }

  lemma {:induction false} OneNamed(outs: seq<seq<Output>>, i: nat, si: SummaryItems, p: string)
    requires i < |outs| && SummariesNamed(outs[i], p) == [si]
    requires forall j :: 0 <= j < |outs| && j != i ==> SummariesNamed(outs[j], p) == []
    ensures SummariesNamed(Joined(outs), p) == [si]
  {
    var n := |outs| - 1;
    SummariesConcat(Joined(outs[..n]), outs[n], p);
    if i == n {
      NoneNamed(outs[..n], p);
    } else {
      OneNamed(outs[..n], i, si, p);
    }
  }

  lemma NoSummary(cfg: Config, items: seq<Item>, p: string)
    requires SortedByName(items)
    requires p == "" || forall j :: 0 <= j < |items| ==> Key(cfg, items[j]) != Some((p, MAX_LATENCY))
    ensures SummariesNamed(OutputOf(cfg, items), p) == []
  {
    var outs := Outputs(cfg, items);
    forall j | 0 <= j < |outs| ensures SummariesNamed(outs[j], p) == [] {
      SummariesAt(cfg, items, j, p);
    }
    NoneNamed(outs, p);
  }

  lemma OneSummary(cfg: Config, items: seq<Item>, i: nat, p: string)
    requires SortedByName(items) && i < |items| && p != "" && Key(cfg, items[i]) == Some((p, MAX_LATENCY))
    ensures SummariesNamed(OutputOf(cfg, items), p) == [Gathered(cfg, items, p)]
  {
    var outs := Outputs(cfg, items);
    SummariesAt(cfg, items, i, p);
    forall j | 0 <= j < |outs| && j != i ensures SummariesNamed(outs[j], p) == [] {
      OneKey(cfg, items, i, j);
      SummariesAt(cfg, items, j, p);
    }
    OneNamed(outs, i, Gathered(cfg, items, p), p);
  }

  lemma MaxOnlyWithSlot(cfg: Config, items: seq<Item>, p: string, k: nat)
    requires SortedByName(items) && Slot(cfg, items, p, k) == None
    ensures forall j :: 0 <= j < |items| ==> Key(cfg, items[j]) != Some((p, k))
  {
    forall j | 0 <= j < |items| ensures Key(cfg, items[j]) != Some((p, k)) {
      if Key(cfg, items[j]) == Some((p, k)) {
        SlotSome(cfg, items, j, p, k);
      }
    }
  }

  /**
    For every sorted stream and every prefix: the whole output holds exactly one
    summary of that name if the stream has a variable "P_max_latency", and none
    otherwise; it carries the texts of the variables named after the prefix, except
    those that land in the slot of another.
  */
  lemma SummariesByName(cfg: Config, items: seq<Item>, p: string)
    requires ValidFlags(cfg) && SortedByName(items)
    ensures SummariesNamed(OutputOf(cfg, items), p) ==
            if p != "" && Text(cfg, items, p + "_max_latency").Some? then [SummaryOf(cfg, items, p)] else []
  {
    SlotIsText(cfg, items, p, MAX_LATENCY);
    if p == "" {
      NoSummary(cfg, items, p);
    } else if Slot(cfg, items, p, MAX_LATENCY).Some? {
      OneSummary(cfg, items, Latest(Keys(cfg, items), (p, MAX_LATENCY)), p);
      GatheredByNames(cfg, items, p);
    } else {
      MaxOnlyWithSlot(cfg, items, p, MAX_LATENCY);
      NoSummary(cfg, items, p);
    }
  }

  /**
    The one summary written for P shows the average of "P_latency" if and only if P
    does not end in "_max" or that average is 0 or absent.
  */
  lemma AverageKeptIff(cfg: Config, items: seq<Item>, p: string)
    requires ValidFlags(cfg) && SortedByName(items) && p != "" && Text(cfg, items, p + "_max_latency").Some?
    ensures var written := SummariesNamed(OutputOf(cfg, items), p);
            && |written| == 1
            && (written[0].avg == NumberOr(Text(cfg, items, p + "_latency")) <==>
                  !EndsWith(p, "_max") || NumberOr(Text(cfg, items, p + "_latency")) == 0)
  {
    SummariesByName(cfg, items, p);
    SummaryShows(cfg, items, p);
  }

  lemma {:induction false} WrittenIsNamed(os: seq<Output>, si: SummaryItems)
    requires Summary(si) in os
    ensures si in SummariesNamed(os, si.metricName)
  {
    var n := |os| - 1;
    if os[n] != Summary(si) {
      WrittenIsNamed(os[..n], si);
    }
  }

  /** No other summaries are written. */
  lemma EverySummaryIsNamed(cfg: Config, items: seq<Item>, si: SummaryItems)
    requires ValidFlags(cfg) && SortedByName(items) && Summary(si) in OutputOf(cfg, items)
    ensures si.metricName != "" && Text(cfg, items, si.metricName + "_max_latency").Some?
    ensures si == SummaryOf(cfg, items, si.metricName)
  {
    WrittenIsNamed(OutputOf(cfg, items), si);
    SummariesByName(cfg, items, si.metricName);
  }

  lemma {:induction false} TextFound(cfg: Config, items: seq<Item>, name: string)
    requires Text(cfg, items, name).Some?
    ensures Item(name, Text(cfg, items, name).value) in items
    ensures Visible(cfg, Item(name, Text(cfg, items, name).value))
  {
    var last := items[|items| - 1];
    if !Visible(cfg, last) || last.name != name {
      TextFound(cfg, items[..|items| - 1], name);
    }
  }

  lemma OneItemPerName(items: seq<Item>, a: Item, b: Item)
    requires SortedByName(items) && a in items && b in items && a.name == b.name
    ensures a == b
  {
    var i :| 0 <= i < |items| && items[i] == a;
    var j :| 0 <= j < |items| && items[j] == b;
    LessIrreflexive(a.name);
  }

  /** In a sorted stream the text of a name is that of the item of that name, if numeric and of the server. */
  lemma TextIs(cfg: Config, items: seq<Item>, name: string, text: string)
    requires SortedByName(items)
    ensures Text(cfg, items, name) == Some(text) <==>
            Item(name, text) in items && cfg.serverPrefix <= name && (text == "" || text[0] != QUOTE)
  {
    if Text(cfg, items, name).Some? {
      TextFound(cfg, items, name);
      if Item(name, text) in items {
        OneItemPerName(items, Item(name, text), Item(name, Text(cfg, items, name).value));
      }
    } else if Item(name, text) in items && Visible(cfg, Item(name, text)) {
      var i :| 0 <= i < |items| && items[i] == Item(name, text);
      TextPresent(cfg, items, i);
    }
  }

  lemma {:induction false} TextPresent(cfg: Config, items: seq<Item>, i: nat)
    requires i < |items| && Visible(cfg, items[i])
    ensures Text(cfg, items, items[i].name).Some?
  {
    var n := |items| - 1;
    if i < n && !(Visible(cfg, items[n]) && items[n].name == items[i].name) {
      TextPresent(cfg, items[..n], i);
    }
  }

  /** What each entry of a summary shows, by the name of the variable it is taken from. */
  lemma SummaryShows(cfg: Config, items: seq<Item>, p: string)
    ensures var si := SummaryOf(cfg, items, p); var p1, p2, p3 := cfg.p1, cfg.p2, cfg.p3;
            && si.percentiles[0] == TextOr(Text(cfg, items, p + ("_latency_" + Digits(p1))))
            && si.percentiles[1] == (if p2 == p1 then "" else TextOr(Text(cfg, items, p + ("_latency_" + Digits(p2)))))
            && si.percentiles[2] ==
               (if p3 == p1 || p3 == p2 then "" else TextOr(Text(cfg, items, p + ("_latency_" + Digits(p3)))))
            && si.percentiles[3] == TextOr(Text(cfg, items, p + "_latency_999"))
            && si.percentiles[4] == TextOr(Text(cfg, items, p + "_latency_9999"))
            && si.percentiles[5] == TextOr(Text(cfg, items, p + "_max_latency"))
            && si.avg == (if EndsWith(p, "_max") then 0 else NumberOr(Text(cfg, items, p + "_latency")))
            && si.count == NumberOr(Text(cfg, items, p + "_count"))
  {
    var texts := OwnTexts(cfg, items, p);
    assert texts[0] == OwnText(cfg, items, p, 0);
  }

  // ----- The gauges, by the names of the variables

  /** The name has the shape P + suffix for one of the eight suffixes of a latency recorder. */
  predicate EndsLikeLatency(cfg: Config, name: string) {
    || EndsWith(name, "_latency_" + Digits(cfg.p1))
    || EndsWith(name, "_latency_" + Digits(cfg.p2))
    || EndsWith(name, "_latency_" + Digits(cfg.p3))
    || EndsWith(name, "_latency_999")
    || EndsWith(name, "_latency_9999")
    || EndsWith(name, "_max_latency")
    || EndsWith(name, "_latency")
    || EndsWith(name, "_count")
  }

  lemma EndsLikeSuffix(cfg: Config, name: string)
    ensures EndsLikeLatency(cfg, name) <==> exists k :: 0 <= k < NSLOTS && EndsWith(name, Suffix(cfg, k))
  {
    if EndsLikeLatency(cfg, name) {
      assert EndsWith(name, Suffix(cfg, 0)) || EndsWith(name, Suffix(cfg, 1)) || EndsWith(name, Suffix(cfg, 2)) ||
             EndsWith(name, Suffix(cfg, 3)) || EndsWith(name, Suffix(cfg, 4)) || EndsWith(name, Suffix(cfg, 5)) ||
             EndsWith(name, Suffix(cfg, 6)) || EndsWith(name, Suffix(cfg, 7));
    }
  }

  /** A numeric variable that is not the server's, or has no name of a latency recorder. */
  predicate IsPlain(cfg: Config, item: Item) {
    (item.desc == "" || item.desc[0] != QUOTE) && !(cfg.serverPrefix <= item.name && EndsLikeLatency(cfg, item.name))
  }

  function PlainItems(cfg: Config, items: seq<Item>): seq<Item> {
    if items == [] then []
    else
      var last := items[|items| - 1];
      PlainItems(cfg, items[..|items| - 1]) + if IsPlain(cfg, last) then [last] else []
  }

  /** The gauges of an output, in the order written. */
  function Gauges(os: seq<Output>): seq<Output> {
    if os == [] then []
    else
      var last := os[|os| - 1];
      Gauges(os[..|os| - 1]) + if last.Gauge? then [last] else []
  }

  lemma {:induction false} GaugesConcat(a: seq<Output>, b: seq<Output>)
    ensures Gauges(a + b) == Gauges(a) + Gauges(b)
    decreases |b|
  {
    if b == [] {
      assert a + b == a;
    } else {
      var n := |b| - 1;
      assert (a + b)[..|a| + n] == a + b[..n];
      GaugesConcat(a, b[..n]);
    }
  }

  /** A gauge shows a variable: under its whole name, with its text, headed by its name without labels. */
  ghost predicate Shows(g: Output, item: Item) {
    && g.Gauge? && g.name == item.name && g.desc == item.desc
    && g.metricsName <= item.name && '{' !in g.metricsName
    && (g.metricsName == item.name || item.name[|g.metricsName|] == '{')
  }

  /** One gauge for each variable, in the same order. */
  ghost predicate ShowsAll(gs: seq<Output>, items: seq<Item>) {
    |gs| == |items| && forall i :: 0 <= i < |gs| ==> Shows(gs[i], items[i])
  }

  lemma ShowsConcat(g1: seq<Output>, g2: seq<Output>, items1: seq<Item>, items2: seq<Item>)
    requires ShowsAll(g1, items1) && ShowsAll(g2, items2)
    ensures ShowsAll(g1 + g2, items1 + items2)
  {
  }

  lemma GaugesOfOne(o: Output)
    ensures Gauges([o]) == if o.Gauge? then [o] else []
  {
    assert Gauges([o][..0]) == [];
  }

  lemma PlainIff(cfg: Config, item: Item)
    ensures IsPlain(cfg, item) <==> !IsString(item.desc) && Key(cfg, item).None?
  {
    EndsLikeSuffix(cfg, item.name);
  }

  lemma PlainEmits(cfg: Config, m: Groups, item: Item)
    ensures if IsPlain(cfg, item)
            then exists o :: Emitted(cfg, m, item) == [o] && Shows(o, item)
            else Emitted(cfg, m, item) == [] || exists si :: Emitted(cfg, m, item) == [Summary(si)]
  {
    PlainIff(cfg, item);
    if IsPlain(cfg, item) {
      var o := Emitted(cfg, m, item)[0];
      assert Emitted(cfg, m, item) == [o] && Shows(o, item);
    }
  }

  lemma GaugesAt(cfg: Config, items: seq<Item>, k: nat)
    requires k < |items|
    ensures ShowsAll(Gauges(OutputAt(cfg, items, k)), if IsPlain(cfg, items[k]) then [items[k]] else [])
  {
    var out, item := OutputAt(cfg, items, k), items[k];
    PlainEmits(cfg, GroupsAfter(cfg, items[..k + 1]), item);
    if out != [] {
      assert out == [out[0]];
      GaugesOfOne(out[0]);
    }
  }

  lemma {:induction false} GaugesUpTo(cfg: Config, items: seq<Item>, n: nat)
    requires n <= |items|
    ensures ShowsAll(Gauges(Joined(Outputs(cfg, items)[..n])), PlainItems(cfg, items[..n]))
  {
    if n > 0 {
      var k := n - 1;
      GaugesUpTo(cfg, items, k);
      GaugesNext(cfg, items, Outputs(cfg, items), k);
      GaugesAt(cfg, items, k);
      ShowsConcat(Gauges(Joined(Outputs(cfg, items)[..k])), Gauges(OutputAt(cfg, items, k)),
                  PlainItems(cfg, items[..k]), if IsPlain(cfg, items[k]) then [items[k]] else []);
    }
  }

  lemma GaugesNext(cfg: Config, items: seq<Item>, outs: seq<seq<Output>>, k: nat)
    requires k < |items| == |outs|
    ensures Gauges(Joined(outs[..k + 1])) == Gauges(Joined(outs[..k])) + Gauges(outs[k])
    ensures PlainItems(cfg, items[..k + 1]) ==
            PlainItems(cfg, items[..k]) + if IsPlain(cfg, items[k]) then [items[k]] else []
  {
    JoinedNext(outs, k);
    GaugesConcat(Joined(outs[..k]), outs[k]);
    assert items[..k + 1][..k] == items[..k];
  }

  /** For every stream: the gauges written, in order, show exactly the plain variables, one each. */
  lemma GaugesByName(cfg: Config, items: seq<Item>)
    ensures ShowsAll(Gauges(OutputOf(cfg, items)), PlainItems(cfg, items))
  {
    GaugesUpTo(cfg, items, |items|);
    assert Outputs(cfg, items)[..|items|] == Outputs(cfg, items) && items[..|items|] == items;
  }

  // ----- A recorder whose name ends in "_max"

  /** Count, average and maximum of a recorder Q_max. */
  function MaxRecorder(q: string, count: string, average: string, maximum: string): seq<Item> {
    [Item(q + "_max" + "_count", count), Item(q + "_max" + "_latency", average),
     Item(q + "_max" + "_max_latency", maximum)]
  }

  lemma LessAtNext(p: string, a: string, b: string)
    requires a != "" && b != "" && a[0] < b[0]
    ensures Less(p + a, p + b)
  {
    LessAfterPrefix(p, a, b);
  }

  lemma ThreeSorted(items: seq<Item>)
    requires |items| == 3 && Less(items[0].name, items[1].name)
    requires Less(items[0].name, items[2].name) && Less(items[1].name, items[2].name)
    ensures SortedByName(items)
  {
  }

  lemma MaxRecorderSorted(q: string, count: string, average: string, maximum: string)
    ensures SortedByName(MaxRecorder(q, count, average, maximum))
  {
    var p := q + "_max" + "_";
    LessAtNext(p, "count", "latency");
    LessAtNext(p, "count", "max_latency");
    LessAtNext(p, "latency", "max_latency");
    SuffixNames(q + "_max");
    ThreeSorted(MaxRecorder(q, count, average, maximum));
  }

  lemma SuffixNames(p: string)
    ensures p + "_" + "count" == p + "_count" && p + "_" + "latency" == p + "_latency"
    ensures p + "_" + "max_latency" == p + "_max_latency"
  {
  }

  /** The text of a name in a stream of three visible items. */
  lemma TextOfThree(cfg: Config, items: seq<Item>, name: string)
    requires |items| == 3 && forall i :: 0 <= i < 3 ==> Visible(cfg, items[i])
    ensures Text(cfg, items, name) ==
            if items[2].name == name then Some(items[2].desc)
            else if items[1].name == name then Some(items[1].desc)
            else if items[0].name == name then Some(items[0].desc)
            else None
  {
    assert items[..2][..1] == items[..1] && items[..1][..0] == [];
    assert Text(cfg, items[..1], name) == if items[0].name == name then Some(items[0].desc) else None;
    assert Text(cfg, items[..2], name) ==
      if items[1].name == name then Some(items[1].desc) else Text(cfg, items[..1], name);
  }

  /** The three texts of the recorder, by name. */
  lemma MaxRecorderTexts(cfg: Config, q: string, count: string, average: string, maximum: string)
    requires cfg.serverPrefix <= q && !IsString(count) && !IsString(average) && !IsString(maximum)
    ensures var items := MaxRecorder(q, count, average, maximum);
            && Text(cfg, items, q + "_max" + "_latency") == Some(average)
            && Text(cfg, items, q + "_max" + "_max_latency") == Some(maximum)
  {
    var items := MaxRecorder(q, count, average, maximum);
    TextOfThree(cfg, items, items[1].name);
    TextOfThree(cfg, items, items[2].name);
  }

  /**
    For every name Q of a server variable: a recorder Q_max loses its average, and
    there is a second summary, of a Q that no recorder has, with that average as its
    maximum.
  */
  lemma AverageIsLost(cfg: Config, q: string, count: string, average: string, maximum: string)
    requires ValidFlags(cfg) && cfg.serverPrefix <= q && q != ""
    requires !IsString(count) && !IsString(average) && !IsString(maximum)
    ensures var items := MaxRecorder(q, count, average, maximum);
            var os := OutputOf(cfg, items);
            && Text(cfg, items, q + "_max" + "_latency") == Some(average)
            && SummariesNamed(os, q + "_max") == [SummaryOf(cfg, items, q + "_max")]
            && SummaryOf(cfg, items, q + "_max").avg == 0
            && SummariesNamed(os, q) == [SummaryOf(cfg, items, q)]
            && SummaryOf(cfg, items, q).percentiles[MAX_LATENCY] == average
  {
    var items, p := MaxRecorder(q, count, average, maximum), q + "_max";
    MaxRecorderSorted(q, count, average, maximum);
    MaxRecorderTexts(cfg, q, count, average, maximum);
    assert EndsWith(p, "_max") && p[..|p| - 4] == q;
    MaxMoves(p);
    SummariesByName(cfg, items, q);
    SummariesByName(cfg, items, p);
    SummaryShows(cfg, items, p);
    SummaryShows(cfg, items, q);
  }

  /** The default flags, and the prefix the service passes. */
  const DEFAULT_CONFIG := Config(80, 90, 99, "rpc_server")

  /** So it happens in the service as it is, for example to a recorder rpc_server_8080_max. */
  lemma AverageIsLostInService(name: string, count: string, average: string, maximum: string)
    requires !IsString(count) && !IsString(average) && !IsString(maximum)
    ensures var q := "rpc_server" + name;
            var items := MaxRecorder(q, count, average, maximum);
            var os := OutputOf(Config(80, 90, 99, "rpc_server"), items);
            && |SummariesNamed(os, q + "_max")| == 1 && SummariesNamed(os, q + "_max")[0].avg == 0
            && |SummariesNamed(os, q)| == 1 && SummariesNamed(os, q)[0].percentiles[MAX_LATENCY] == average
  {
    AverageIsLost(DEFAULT_CONFIG, DEFAULT_CONFIG.serverPrefix + name, count, average, maximum);
  }
}
