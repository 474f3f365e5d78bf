/**
  ProtobufsService::Init (melon/builtin/protobufs_service.cc): collect the text of
  every protobuf message that the user services of a server can mention.

  A descriptor pointer is an index into the pool of all message descriptors, so
  comparing pointers is comparing indices. The search marks a message when it is
  popped, not when it is pushed, so one message can be on the stack many times.
*/
module Descriptors {

  datatype FieldKind = Scalar | Message | Group

  /** messageType is meaningful for Message and Group fields only. */
  datatype Field = Field(kind: FieldKind, messageType: nat)

  datatype Descriptor = Descriptor(fullName: string, debugString: string, fields: seq<Field>)

  datatype Method = Method(inputType: nat, outputType: nat)

  datatype Service = Service(isUserService: bool, fullName: string, debugString: string, methods: seq<Method>)

  type Pool = seq<Descriptor>

  function Children(pool: Pool, d: nat): set<nat>
    requires d < |pool|
  {
    set f | f in pool[d].fields && f.kind != Scalar :: f.messageType
  }

  /** The children of a message are the types of its message and group fields. */
  lemma ChildrenAre(pool: Pool, d: nat, c: nat)
    requires d < |pool|
    ensures c in Children(pool, d) <==>
            Field(Message, c) in pool[d].fields || Field(Group, c) in pool[d].fields
  {
    if c in Children(pool, d) {
      var f :| f in pool[d].fields && f.kind != Scalar && f.messageType == c;
      assert f == Field(Message, c) || f == Field(Group, c);
    }
  }

  predicate ClosedPool(pool: Pool) {
    forall d, i :: 0 <= d < |pool| && 0 <= i < |pool[d].fields| && pool[d].fields[i].kind != Scalar ==>
      pool[d].fields[i].messageType < |pool|
  }

  predicate ClosedServices(pool: Pool, services: seq<Service>) {
    forall s, m :: s in services && m in s.methods ==> m.inputType < |pool| && m.outputType < |pool|
  }

  /** Full names are unique among messages and services, as a descriptor pool guarantees. */
  predicate UniqueNames(pool: Pool, services: seq<Service>) {
    && (forall d, e :: 0 <= d < e < |pool| ==> pool[d].fullName != pool[e].fullName)
    && (forall s, t :: 0 <= s < t < |services| ==> services[s].fullName != services[t].fullName)
    && (forall s, d :: s in services && 0 <= d < |pool| ==> s.fullName != pool[d].fullName)
  }

  /** The input and output types of user services, in the order the code pushes them. */
  function Roots(services: seq<Service>): seq<nat> {
    if services == [] then []
    else Roots(services[..|services| - 1]) + ServiceRoots(services[|services| - 1])
  }

  function ServiceRoots(s: Service): seq<nat> {
    if s.isUserService then MethodRoots(s.methods) else []
  }

  function MethodRoots(methods: seq<Method>): seq<nat> {
    if methods == [] then []
    else
      var m := methods[|methods| - 1];
      MethodRoots(methods[..|methods| - 1]) + [m.inputType, m.outputType]
  }

  /** The roots are exactly the input and output types of the methods of user services. */
  lemma {:induction false} RootsAre(services: seq<Service>, r: nat)
    ensures r in Roots(services) <==>
            exists s, m :: s in services && s.isUserService && m in s.methods && (r == m.inputType || r == m.outputType)
  {
    if services != [] {
      var n := |services| - 1;
      RootsAre(services[..n], r);
      MethodRootsAre(services[n].methods, r);
      assert services == services[..n] + [services[n]];
    }
  }

  lemma {:induction false} MethodRootsAre(methods: seq<Method>, r: nat)
    ensures r in MethodRoots(methods) <==> exists m :: m in methods && (r == m.inputType || r == m.outputType)
  {
    if methods != [] {
      var n := |methods| - 1;
      MethodRootsAre(methods[..n], r);
      assert methods == methods[..n] + [methods[n]];
    }
  }

  /** A chain of message or group fields from one of the roots to its last element. */
  ghost predicate IsPath(pool: Pool, roots: seq<nat>, path: seq<nat>) {
    && path != []
    && path[0] in roots
    && (forall k :: 0 <= k < |path| ==> path[k] < |pool|)
    && (forall k :: 0 < k < |path| ==> path[k] in Children(pool, path[k - 1]))
  }

  ghost predicate Reachable(pool: Pool, roots: seq<nat>, d: nat) {
    exists path :: IsPath(pool, roots, path) && path[|path| - 1] == d
  }

  lemma RootReachable(pool: Pool, roots: seq<nat>, d: nat)
    requires d in roots && d < |pool|
    ensures Reachable(pool, roots, d)
  {
    assert IsPath(pool, roots, [d]);
  }

  lemma ChildReachable(pool: Pool, roots: seq<nat>, d: nat, c: nat)
    requires Reachable(pool, roots, d) && d < |pool| && c in Children(pool, d) && c < |pool|
    ensures Reachable(pool, roots, c)
  {
    var path :| IsPath(pool, roots, path) && path[|path| - 1] == d;
    assert IsPath(pool, roots, path + [c]);
  }

  predicate Recorded(pool: Pool, texts: map<string, string>, d: nat) {
    d < |pool| && pool[d].fullName in texts
  }

  ghost function Unrecorded(pool: Pool, texts: map<string, string>): set<nat> {
    set d: nat | d < |pool| && !Recorded(pool, texts, d)
  }

  /** Everything on the stack, and everything recorded, is reachable; recorded messages carry their own text. */
  ghost predicate Sound(pool: Pool, roots: seq<nat>, stack: seq<nat>, texts: map<string, string>) {
    && (forall j :: 0 <= j < |stack| ==> stack[j] < |pool| && Reachable(pool, roots, stack[j]))
    && (forall d :: 0 <= d < |pool| && Recorded(pool, texts, d) ==>
          Reachable(pool, roots, d) && texts[pool[d].fullName] == pool[d].debugString)
  }

  /** What is still to be recorded is waiting on the stack. */
  ghost predicate Complete(pool: Pool, roots: seq<nat>, stack: seq<nat>, texts: map<string, string>) {
    && (forall r :: r in roots ==> Recorded(pool, texts, r) || r in stack)
    && (forall d, c :: 0 <= d < |pool| && Recorded(pool, texts, d) && c in Children(pool, d) ==>
          Recorded(pool, texts, c) || c in stack)
  }

  ghost predicate Above(stack: seq<nat>, j: nat, c: nat) {
    exists k :: j < k < |stack| && stack[k] == c
  }

  /**
    The reason the search terminates: above every stack occurrence of a recorded
    message lies each of its children that is not recorded yet.
  */
  ghost predicate ChildrenAbove(pool: Pool, stack: seq<nat>, texts: map<string, string>) {
    forall j, c :: 0 <= j < |stack| && stack[j] < |pool| && Recorded(pool, texts, stack[j])
                   && c in Children(pool, stack[j]) && !Recorded(pool, texts, c) ==>
      Above(stack, j, c)
  }

  /** The inner loop over the fields of d: push every child that is not recorded. */
  method PushChildren(pool: Pool, texts: map<string, string>, d: nat, stack0: seq<nat>) returns (stack: seq<nat>)
    requires ClosedPool(pool) && d < |pool| && Recorded(pool, texts, d)
    ensures stack0 <= stack
    ensures forall k :: |stack0| <= k < |stack| ==>
              stack[k] in Children(pool, d) && stack[k] < |pool| && !Recorded(pool, texts, stack[k])
    ensures forall c :: c in Children(pool, d) && !Recorded(pool, texts, c) ==>
              exists k :: |stack0| <= k < |stack| && stack[k] == c
  {
    stack := stack0;
    var fields := pool[d].fields;
    for i := 0 to |fields|
      invariant stack0 <= stack
      invariant forall k :: |stack0| <= k < |stack| ==>
                  stack[k] in Children(pool, d) && stack[k] < |pool| && !Recorded(pool, texts, stack[k])
      invariant forall x :: 0 <= x < i && fields[x].kind != Scalar && !Recorded(pool, texts, fields[x].messageType) ==>
                  exists k :: |stack0| <= k < |stack| && stack[k] == fields[x].messageType
    {
      var f := fields[i];
      if f.kind == Message || f.kind == Group {
        var sub := f.messageType;
        assert sub in Children(pool, d);
        if sub != d && pool[sub].fullName !in texts {
          ghost var before := stack;
          stack := stack + [sub];
          assert stack[|before|] == sub;
          assert forall k :: 0 <= k < |before| ==> stack[k] == before[k];
        }
      }
    }
  }

  /** One turn of the search, with the facts PushChildren gives about the new stack. */
  ghost predicate Visit(pool: Pool, stack: seq<nat>, texts: map<string, string>,
                        stack': seq<nat>, texts': map<string, string>) {
    && stack != []
    && var top := |stack| - 1; var d := stack[top];
    && d < |pool|
    && texts' == texts[pool[d].fullName := pool[d].debugString]
    && stack[..top] <= stack'
    && (forall k :: top <= k < |stack'| ==>
          stack'[k] in Children(pool, d) && stack'[k] < |pool| && !Recorded(pool, texts', stack'[k]))
    && (forall c :: c in Children(pool, d) && !Recorded(pool, texts', c) ==>
          exists k :: top <= k < |stack'| && stack'[k] == c)
  }

  lemma RecordedAfterVisit(pool: Pool, stack: seq<nat>, texts: map<string, string>,
                           stack': seq<nat>, texts': map<string, string>, e: nat)
    requires Visit(pool, stack, texts, stack', texts') && UniqueNames(pool, [])
    ensures Recorded(pool, texts', e) <==> Recorded(pool, texts, e) || e == stack[|stack| - 1]
  {
  }

  lemma VisitKeepsSound(pool: Pool, roots: seq<nat>, stack: seq<nat>, texts: map<string, string>,
                        stack': seq<nat>, texts': map<string, string>)
    requires Visit(pool, stack, texts, stack', texts') && UniqueNames(pool, [])
    requires Sound(pool, roots, stack, texts)
    ensures Sound(pool, roots, stack', texts')
  {
    var top := |stack| - 1;
    var d := stack[top];
    forall j | 0 <= j < |stack'|
      ensures stack'[j] < |pool| && Reachable(pool, roots, stack'[j])
    {
      if j < top {
        assert stack'[j] == stack[..top][j] == stack[j];
      } else {
        ChildReachable(pool, roots, d, stack'[j]);
      }
    }
  }

  lemma VisitKeepsComplete(pool: Pool, roots: seq<nat>, stack: seq<nat>, texts: map<string, string>,
                           stack': seq<nat>, texts': map<string, string>)
    requires Visit(pool, stack, texts, stack', texts') && UniqueNames(pool, [])
    requires Complete(pool, roots, stack, texts)
    ensures Complete(pool, roots, stack', texts')
  {
    var top := |stack| - 1;
    forall e | e in stack && e != stack[top]
      ensures e in stack'
    {
      var k :| 0 <= k < |stack| && stack[k] == e;
      assert stack'[k] == stack[..top][k] == e;
    }
    assert Recorded(pool, texts', stack[top]);
    forall d, c | 0 <= d < |pool| && Recorded(pool, texts', d) && c in Children(pool, d)
      ensures Recorded(pool, texts', c) || c in stack'
    {
      RecordedAfterVisit(pool, stack, texts, stack', texts', d);
    }
  }

  lemma VisitKeepsChildrenAbove(pool: Pool, stack: seq<nat>, texts: map<string, string>,
                                stack': seq<nat>, texts': map<string, string>)
    requires Visit(pool, stack, texts, stack', texts') && UniqueNames(pool, [])
    requires ChildrenAbove(pool, stack, texts)
    ensures ChildrenAbove(pool, stack', texts')
  {
  }

  lemma TopChildrenRecorded(pool: Pool, stack: seq<nat>, texts: map<string, string>, c: nat)
    requires stack != [] && stack[|stack| - 1] < |pool| && Recorded(pool, texts, stack[|stack| - 1])
    requires ChildrenAbove(pool, stack, texts) && c in Children(pool, stack[|stack| - 1])
    ensures Recorded(pool, texts, c)
  {
  }

  /** Popping a message that is already recorded pushes nothing; popping a new one records it. */
  lemma VisitMakesProgress(pool: Pool, roots: seq<nat>, stack: seq<nat>, texts: map<string, string>,
                           stack': seq<nat>, texts': map<string, string>)
    requires Visit(pool, stack, texts, stack', texts') && UniqueNames(pool, [])
    requires Sound(pool, roots, stack, texts) && ChildrenAbove(pool, stack, texts)
    ensures if Recorded(pool, texts, stack[|stack| - 1])
            then texts' == texts && stack' == stack[..|stack| - 1]
            else Unrecorded(pool, texts') < Unrecorded(pool, texts)
  {
    var top := |stack| - 1;
    var d := stack[top];
    assert top < |stack'| ==> stack'[top] in Children(pool, d) && !Recorded(pool, texts', stack'[top]);
    if Recorded(pool, texts, d) {
      assert texts' == texts;
      forall c | c in Children(pool, d) ensures Recorded(pool, texts, c) {
        TopChildrenRecorded(pool, stack, texts, c);
      }
    } else {
      assert d in Unrecorded(pool, texts) && d !in Unrecorded(pool, texts');
    }
  }

  /** The invariant of the search. */
  ghost predicate Searching(pool: Pool, roots: seq<nat>, stack: seq<nat>, texts: map<string, string>) {
    Sound(pool, roots, stack, texts) && Complete(pool, roots, stack, texts) && ChildrenAbove(pool, stack, texts)
  }

  lemma VisitKeeps(pool: Pool, roots: seq<nat>, stack: seq<nat>, texts: map<string, string>,
                   stack': seq<nat>, texts': map<string, string>)
    requires Visit(pool, stack, texts, stack', texts') && UniqueNames(pool, [])
    requires Searching(pool, roots, stack, texts)
    ensures Searching(pool, roots, stack', texts')
    ensures Unrecorded(pool, texts') < Unrecorded(pool, texts) || (texts' == texts && |stack'| < |stack|)
    ensures Extends(pool, texts, texts')
  {
    VisitKeepsSound(pool, roots, stack, texts, stack', texts');
    VisitKeepsComplete(pool, roots, stack, texts, stack', texts');
    VisitKeepsChildrenAbove(pool, stack, texts, stack', texts');
    VisitMakesProgress(pool, roots, stack, texts, stack', texts');
  }

  /** Entries are only added, and only under message names. */
  ghost predicate Extends(pool: Pool, texts0: map<string, string>, texts: map<string, string>) {
    && (forall key :: key in texts0 ==> key in texts && texts[key] == texts0[key])
    && (forall key :: key in texts && key !in texts0 ==> IsMessageName(pool, key))
  }

  ghost predicate IsMessageName(pool: Pool, key: string) {
    exists d :: 0 <= d < |pool| && pool[d].fullName == key
  }

  lemma SearchStart(pool: Pool, roots: seq<nat>, texts: map<string, string>)
    requires forall r :: r in roots ==> r < |pool|
    requires forall d :: 0 <= d < |pool| ==> pool[d].fullName !in texts
    ensures Searching(pool, roots, roots, texts)
  {
    forall j | 0 <= j < |roots| ensures roots[j] < |pool| && Reachable(pool, roots, roots[j]) {
      assert roots[j] in roots;
      RootReachable(pool, roots, roots[j]);
    }
  }

  lemma SearchEnd(pool: Pool, roots: seq<nat>, texts: map<string, string>, d: nat)
    requires Searching(pool, roots, [], texts) && d < |pool| && Reachable(pool, roots, d)
    ensures Recorded(pool, texts, d)
  {
    var path :| IsPath(pool, roots, path) && path[|path| - 1] == d;
    PathRecorded(pool, roots, texts, path, |path| - 1);
  }

  /** The search loop of Init. */
  method CollectMessages(pool: Pool, roots: seq<nat>, texts0: map<string, string>)
    returns (texts: map<string, string>)
    requires ClosedPool(pool) && UniqueNames(pool, [])
    requires forall r :: r in roots ==> r < |pool|
    requires forall d :: 0 <= d < |pool| ==> pool[d].fullName !in texts0
    ensures forall d :: 0 <= d < |pool| ==> (pool[d].fullName in texts <==> Reachable(pool, roots, d))
    ensures forall d :: 0 <= d < |pool| && Reachable(pool, roots, d) ==>
              texts[pool[d].fullName] == pool[d].debugString
    ensures Extends(pool, texts0, texts)
  {
    var stack := roots;
    texts := texts0;
    SearchStart(pool, roots, texts);
    while stack != []
      invariant Searching(pool, roots, stack, texts)
      invariant Extends(pool, texts0, texts)
      decreases Unrecorded(pool, texts), |stack|
    {
      ghost var oldStack, oldTexts := stack, texts;
      var d := stack[|stack| - 1];
      stack := stack[..|stack| - 1];
      texts := texts[pool[d].fullName := pool[d].debugString];
      stack := PushChildren(pool, texts, d, stack);
      VisitKeeps(pool, roots, oldStack, oldTexts, stack, texts);
    }
    forall d: nat | d < |pool| && Reachable(pool, roots, d)
      ensures Recorded(pool, texts, d)
    {
      SearchEnd(pool, roots, texts, d);
    }
  }

  lemma {:induction false} PathRecorded(pool: Pool, roots: seq<nat>, texts: map<string, string>, path: seq<nat>, k: nat)
    requires IsPath(pool, roots, path) && k < |path|
    requires Complete(pool, roots, [], texts)
    ensures Recorded(pool, texts, path[k])
  {
    if k > 0 {
      PathRecorded(pool, roots, texts, path, k - 1);
    }
  }

  /** The map holds exactly the texts of the user services. */
  ghost predicate ServicesRecorded(services: seq<Service>, texts: map<string, string>) {
    && (forall s :: s in services && s.isUserService ==> s.fullName in texts && texts[s.fullName] == s.debugString)
    && (forall key :: key in texts ==> exists s :: s in services && s.isUserService && s.fullName == key)
  }

  /** The methods of one service. */
  method PushMethods(pool: Pool, stack0: seq<nat>, methods: seq<Method>) returns (stack: seq<nat>)
    requires forall r :: r in stack0 ==> r < |pool|
    requires forall m :: m in methods ==> m.inputType < |pool| && m.outputType < |pool|
    ensures stack == stack0 + MethodRoots(methods)
    ensures forall r :: r in stack ==> r < |pool|
  {
    stack := stack0;
    for j := 0 to |methods|
      invariant stack == stack0 + MethodRoots(methods[..j])
      invariant forall r :: r in stack ==> r < |pool|
    {
      var md := methods[j];
      assert methods[..j + 1][..j] == methods[..j];
      stack := stack + [md.inputType];
      stack := stack + [md.outputType];
      assert stack == stack0 + (MethodRoots(methods[..j]) + [md.inputType, md.outputType]);
    }
    assert methods[..|methods|] == methods;
  }

  lemma RecordService(services: seq<Service>, i: nat, texts: map<string, string>)
    requires i < |services| && ServicesRecorded(services[..i], texts)
    requires forall s :: 0 <= s < i ==> services[s].fullName != services[i].fullName
    ensures var s := services[i];
            ServicesRecorded(services[..i + 1], if s.isUserService then texts[s.fullName := s.debugString] else texts)
  {
  }

  /** The first loop of Init. */
  method RecordServices(pool: Pool, services: seq<Service>) returns (stack: seq<nat>, texts: map<string, string>)
    requires ClosedServices(pool, services) && UniqueNames(pool, services)
    ensures stack == Roots(services) && (forall r :: r in stack ==> r < |pool|)
    ensures ServicesRecorded(services, texts)
  {
    stack, texts := [], map[];
    for i := 0 to |services|
      invariant stack == Roots(services[..i])
      invariant forall r :: r in stack ==> r < |pool|
      invariant ServicesRecorded(services[..i], texts)
    {
      var d := services[i];
      assert services[..i + 1][..i] == services[..i];
      RecordService(services, i, texts);
      if d.isUserService {
        texts := texts[d.fullName := d.debugString];
        assert d in services;
        stack := PushMethods(pool, stack, d.methods);
      }
    }
    assert services[..|services|] == services;
  }

  class ProtobufsService {
    /** _map: full name to text. */
    var texts: map<string, string>

    constructor (pool: Pool, services: seq<Service>)
      requires ClosedPool(pool) && ClosedServices(pool, services) && UniqueNames(pool, services)
      ensures Initialized(pool, services)
    {
      texts := map[];
      new;
      Init(pool, services);
    }

    /**
      The map holds exactly the user services and the messages reachable from
      their methods, each under its full name with its own text.
    */
    ghost predicate Initialized(pool: Pool, services: seq<Service>)
      reads this
    {
      && (forall d :: 0 <= d < |pool| && Reachable(pool, Roots(services), d) ==>
            pool[d].fullName in texts && texts[pool[d].fullName] == pool[d].debugString)
      && (forall s :: s in services && s.isUserService ==>
            s.fullName in texts && texts[s.fullName] == s.debugString)
      && (forall key :: key in texts ==>
            || (exists d :: 0 <= d < |pool| && pool[d].fullName == key && Reachable(pool, Roots(services), d))
            || (exists s :: s in services && s.isUserService && s.fullName == key))
    }

    method Init(pool: Pool, services: seq<Service>)
      requires ClosedPool(pool) && ClosedServices(pool, services) && UniqueNames(pool, services)
      requires texts == map[]
      modifies this
      ensures Initialized(pool, services)
    {
      var stack, serviceTexts := RecordServices(pool, services);
      texts := CollectMessages(pool, stack, serviceTexts);
    }
  }
}
