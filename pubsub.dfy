/**
 One node of the publish/subscribe topic tree (class TreeNode of PubSub/PubSub.cs).

 A node owns a dictionary from topic segment to child node, a list of
 exact-topic callbacks ("payloads") and a list of wildcard callbacks. The
 callbacks are stored as type-erased delegates; here they are values of an
 opaque type parameter `D`.

 The class is specified twice over: each method states its effect on the
 node's fields directly, and also as one step `Apply` of a value-level
 description of the node (`NodeState`). The lemmas at the end are about any
 sequence of such steps (`Run`): child bindings, once made, never change, and
 the two callback lists only ever grow, by exactly the callbacks added.
 */
module PubSub {

  /** The contents of a node's three fields, as a value. */
  datatype NodeState<D> = NodeState(
    children: map<string, TreeNode<D>>,
    payloads: seq<D>,
    wildcardListeners: seq<D>)

  /** A call that changes a node. A get-or-create carries the node it inserts when the key is missing. */
  datatype Op<D> =
    | GetChildOp(key: string, created: TreeNode<D>)
    | AddPayloadOp(callback: D)
    | AddWildCardOp(callback: D)

  /** `t` is reachable from `s`: every child binding of `s` survives unchanged in `t`,
      and each callback list of `s` is a prefix of the corresponding list of `t`. */
  ghost predicate Grows<D>(s: NodeState<D>, t: NodeState<D>)
  {
    && (forall k :: k in s.children ==> k in t.children && t.children[k] == s.children[k])
    && s.payloads <= t.payloads
    && s.wildcardListeners <= t.wildcardListeners
  }

  /** The effect of one call on a node's fields. */
  function Apply<D>(s: NodeState<D>, op: Op<D>): (t: NodeState<D>)
    ensures Grows(s, t)
    ensures op.GetChildOp? ==> op.key in t.children
    ensures !op.GetChildOp? ==> t.children == s.children
    ensures !op.AddPayloadOp? ==> t.payloads == s.payloads
    ensures !op.AddWildCardOp? ==> t.wildcardListeners == s.wildcardListeners
  {
    match op
    case GetChildOp(key, created) =>
      if key in s.children then s else s.(children := s.children[key := created])
    case AddPayloadOp(cb) => s.(payloads := s.payloads + [cb])
    case AddWildCardOp(cb) => s.(wildcardListeners := s.wildcardListeners + [cb])
  }

  /** The effect of a sequence of calls, in order. */
  function Run<D>(s: NodeState<D>, ops: seq<Op<D>>): (t: NodeState<D>)
    ensures Grows(s, t)
    decreases |ops|
  {
    if ops == [] then s else Run(Apply(s, ops[0]), ops[1..])
  }

  /** The callbacks that `ops` add to the exact-topic list, in call order. */
  function AddedPayloads<D>(ops: seq<Op<D>>): (r: seq<D>)
  {
    if ops == [] then []
    else (if ops[0].AddPayloadOp? then [ops[0].callback] else []) + AddedPayloads(ops[1..])
  }

  /** The callbacks that `ops` add to the wildcard list, in call order. */
  function AddedWildcards<D>(ops: seq<Op<D>>): (r: seq<D>)
  {
    if ops == [] then []
    else (if ops[0].AddWildCardOp? then [ops[0].callback] else []) + AddedWildcards(ops[1..])
  }

  /** The keys that `ops` ask a child for. */
  function RequestedKeys<D>(ops: seq<Op<D>>): (r: set<string>)
  {
    if ops == [] then {}
    else (if ops[0].GetChildOp? then {ops[0].key} else {}) + RequestedKeys(ops[1..])
  }

  /** The node carried by the first get-or-create of `key` in `ops`. */
  function FirstCreated<D>(ops: seq<Op<D>>, key: string): (r: TreeNode<D>)
    requires key in RequestedKeys(ops)
    decreases |ops|
  {
    if ops[0].GetChildOp? && ops[0].key == key then ops[0].created
    else FirstCreated(ops[1..], key)
  }

  /** After any calls, the exact-topic list is the old list followed by exactly the callbacks added, in order. */
  lemma {:induction false} RunPayloads<D>(s: NodeState<D>, ops: seq<Op<D>>)
    ensures Run(s, ops).payloads == s.payloads + AddedPayloads(ops)
    decreases |ops|
  {
    if ops != [] {
      RunPayloads(Apply(s, ops[0]), ops[1..]);
    }
  }

  /** After any calls, the wildcard list is the old list followed by exactly the callbacks added, in order. */
  lemma {:induction false} RunWildcards<D>(s: NodeState<D>, ops: seq<Op<D>>)
    ensures Run(s, ops).wildcardListeners == s.wildcardListeners + AddedWildcards(ops)
    decreases |ops|
  {
    if ops != [] {
      RunWildcards(Apply(s, ops[0]), ops[1..]);
    }
  }

  /** After any calls, the keys with a child are the old keys plus exactly the keys asked for. */
  lemma {:induction false} RunKeys<D>(s: NodeState<D>, ops: seq<Op<D>>)
    ensures Run(s, ops).children.Keys == s.children.Keys + RequestedKeys(ops)
    decreases |ops|
  {
    if ops != [] {
      RunKeys(Apply(s, ops[0]), ops[1..]);
    }
  }

  /** Get-or-create is decided once per key: an existing child stays bound forever, and a
      missing key ends up bound to the node inserted by its first get-or-create. */
  lemma {:induction false} RunChild<D>(s: NodeState<D>, ops: seq<Op<D>>, key: string)
    requires key in s.children || key in RequestedKeys(ops)
    ensures key in Run(s, ops).children
    ensures Run(s, ops).children[key] ==
              if key in s.children then s.children[key] else FirstCreated(ops, key)
    decreases |ops|
  {
    if ops != [] {
      RunChild(Apply(s, ops[0]), ops[1..], key);
    }
  }

  /** Running `ops` and then `op` is one more step after running `ops`: a history of
      method calls, each specified by `Apply`, is `Run` of their ops in call order. */
  lemma {:induction false} RunSnoc<D>(s: NodeState<D>, ops: seq<Op<D>>, op: Op<D>)
    ensures Run(s, ops + [op]) == Apply(Run(s, ops), op)
    decreases |ops|
  {
    if ops == [] {
      assert ops + [op] == [op];
    } else {
      assert (ops + [op])[1..] == ops[1..] + [op];
      RunSnoc(Apply(s, ops[0]), ops[1..], op);
    }
  }

  /** The list object a snapshot hands out: a new List<Delegate> that the caller owns. */
  class CallbackList<D> {
    var items: seq<D>

    constructor Copy(s: seq<D>)
      ensures items == s
    {
      items := s;
    }

    method Add(x: D)
      modifies this
      ensures items == old(items) + [x]
    {
      items := items + [x];
    }
  }

  class TreeNode<D> {
    var children: map<string, TreeNode<D>>
    var payloads: seq<D>
    var wildcardListeners: seq<D>

    /** The node's fields as a value. */
    function State(): (s: NodeState<D>)
      reads this
    {
      NodeState(children, payloads, wildcardListeners)
    }

    /** The shape every node has, since each child is a node newly allocated by
        `GetChild`: a node is not its own child, and no two keys share a child. */
    ghost predicate Valid()
      reads this
    {
      && this !in children.Values
      && forall j, k :: j in children && k in children && j != k ==> children[j] != children[k]
    }

    /** A new node has no children and no callbacks. */
    constructor ()
      ensures Valid()
      ensures children == map[] && payloads == [] && wildcardListeners == []
    {
      children := map[];
      payloads := [];
      wildcardListeners := [];
    }

    /** Returns the child for `key`, first inserting a new empty node if there is none. */
    method GetChild(key: string) returns (r: TreeNode<D>)
      modifies this
      ensures old(Valid()) ==> Valid() && r != this
      ensures key in children && r == children[key]
      ensures key in old(children) ==> r == old(children[key]) && children == old(children)
      ensures key !in old(children) ==>
                && fresh(r)
                && r.children == map[] && r.payloads == [] && r.wildcardListeners == []
                && r.Valid()
                && children == old(children)[key := r]
      ensures payloads == old(payloads) && wildcardListeners == old(wildcardListeners)
      ensures State() == Apply(old(State()), GetChildOp(key, r))
    {
      if key !in children {
        var n := new TreeNode();
        children := children[key := n];
      }
      r := children[key];
    }

    /** A copy of the exact-topic callbacks, in a new list; the node is not changed. */
    method GetPayloads() returns (l: CallbackList<D>)
      ensures fresh(l) && l.items == payloads
    {
      l := new CallbackList.Copy(payloads);
    }

    /** A copy of the wildcard callbacks, in a new list; the node is not changed. */
    method GetWildcards() returns (l: CallbackList<D>)
      ensures fresh(l) && l.items == wildcardListeners
    {
      l := new CallbackList.Copy(wildcardListeners);
    }

    /** Appends `callback` to the exact-topic callbacks. */
    method AddPayload(callback: D)
      modifies this
      ensures payloads == old(payloads) + [callback]
      ensures children == old(children) && wildcardListeners == old(wildcardListeners)
      ensures Valid() == old(Valid())
      ensures State() == Apply(old(State()), AddPayloadOp(callback))
    {
      payloads := payloads + [callback];
    }

    /** Appends `callback` to the wildcard callbacks. */
    method AddWildCard(callback: D)
      modifies this
      ensures wildcardListeners == old(wildcardListeners) + [callback]
      ensures children == old(children) && payloads == old(payloads)
      ensures Valid() == old(Valid())
      ensures State() == Apply(old(State()), AddWildCardOp(callback))
    {
      wildcardListeners := wildcardListeners + [callback];
    }
  }

  /** Two get-or-create calls with the same key return the same node, and the
      second one changes nothing. */
  method GetChildTwice<D>(n: TreeNode<D>, key: string) returns (a: TreeNode<D>, b: TreeNode<D>)
    modifies n
    ensures old(n.Valid()) ==> n.Valid()
    ensures a == b && key in n.children && n.children[key] == a
    ensures n.children == if key in old(n.children) then old(n.children) else old(n.children)[key := a]
    ensures n.payloads == old(n.payloads) && n.wildcardListeners == old(n.wildcardListeners)
  {
    a := n.GetChild(key);
    ghost var between := n.children;
    b := n.GetChild(key);
    assert n.children == between;
  }

  /** Snapshots are independent of the node: appending to the returned lists gives
      the node's lists plus the new element, while the node (which this method may
      not modify) keeps its lists as they were. */
  method SnapshotsAreIndependent<D>(n: TreeNode<D>, cb: D) returns (p: CallbackList<D>, w: CallbackList<D>)
    ensures p.items == n.payloads + [cb]
    ensures w.items == n.wildcardListeners + [cb]
  {
    p := n.GetPayloads();
    p.Add(cb);
    w := n.GetWildcards();
    w.Add(cb);
  }

  /** Snapshots are independent in the other direction too: lists taken before
      later appends to the node keep the contents the node had when they were taken. */
  method SnapshotsOutliveAppends<D>(n: TreeNode<D>, cb: D) returns (p: CallbackList<D>, w: CallbackList<D>)
    modifies n
    ensures p.items == old(n.payloads) && w.items == old(n.wildcardListeners)
    ensures n.payloads == old(n.payloads) + [cb]
    ensures n.wildcardListeners == old(n.wildcardListeners) + [cb]
  {
    p := n.GetPayloads();
    w := n.GetWildcards();
    n.AddPayload(cb);
    n.AddWildCard(cb);
  }
}
