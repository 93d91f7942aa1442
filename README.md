# PubSub topic tree node, in Dafny

This project models `TreeNode`, one node of the topic prefix tree of the PubSub
library. A node holds three pieces of mutable state:

- `children`: a dictionary from topic segment to child node;
- `payloads`: a list of exact-topic callbacks;
- `wildcardListeners`: a list of wildcard callbacks.

Which broadcasts these callbacks would receive is left to `Subscribe` and
`Broadcast`, whose bodies are empty.

`TreeNode` is a Dafny class with these three fields. The dictionary becomes a
`map<string, TreeNode<D>>` and the two lists become `seq<D>`. `D` is an opaque
type parameter standing for the type-erased delegate. The operations are
methods with `modifies this` where the source mutates the node:

- get-or-create of a child, which inserts a freshly allocated empty node when the key is missing;
- appending to either callback list;
- snapshots of either list, which return a new list object (`CallbackList`, the
  returned `List<Delegate>`) and change nothing.

Each mutating method states its effect field by field. It also states the
effect as one step of `Apply`, a function over `NodeState`, the node's fields
as a value. `Run` applies a sequence of such steps. Lemmas about `Run` state
what holds after any sequence of calls on a node:

- a child binding, once made, never changes;
- the keys with children are the old keys plus exactly the keys asked for;
- each callback list is its old contents followed by exactly the callbacks added, in call order;
- the child bound to a new key is the node inserted by the first get-or-create of that key.

A node may also have a shape invariant, `Valid`: it is not its own child, and no
two keys share a child. The constructor establishes it, a child created by
`GetChild` has it, and every method keeps it on a node that had it.

All files are in module `PubSub` (`pubsub.dfy`).

## Model

| member | source | states |
|---|---|---|
| `PubSub.TreeNode.constructor` | PubSub/PubSub.cs:10-12 | a new node has no children, no exact callbacks and no wildcard callbacks |
| `PubSub.TreeNode.GetChild` | PubSub/PubSub.cs:14-19 | afterwards `key` has a child and the result is that child; on a node whose children are all distinct and not the node itself (`Valid`), the result is not the node itself and the node keeps that shape; if `key` was present, the result is the existing child and `children` is unchanged; if it was absent, the result is a freshly allocated empty node, itself of that shape, bound to `key` and every other binding is kept; the callback lists are unchanged; only this node is modified |
| `PubSub.TreeNode.GetPayloads` | PubSub/PubSub.cs:21-24 | returns a freshly allocated list equal in contents and order to `payloads`; the node is not modified |
| `PubSub.TreeNode.GetWildcards` | PubSub/PubSub.cs:26-29 | returns a freshly allocated list equal in contents and order to `wildcardListeners`; the node is not modified |
| `PubSub.TreeNode.AddPayload` | PubSub/PubSub.cs:31-34 | `payloads` becomes the old list with `callback` appended; `children` and `wildcardListeners` are unchanged, so the node keeps its shape |
| `PubSub.TreeNode.AddWildCard` | PubSub/PubSub.cs:36-39 | `wildcardListeners` becomes the old list with `callback` appended; `children` and `payloads` are unchanged, so the node keeps its shape |
| `PubSub.CallbackList.Copy` | PubSub/PubSub.cs:23 | the list built by a snapshot holds exactly the given callbacks, in order |
| `PubSub.CallbackList.Add` | PubSub/PubSub.cs:21-29 | appending to a returned snapshot list adds the element at its end; it stands for the caller's use of the returned `List<Delegate>` |
| `PubSub.Apply` | PubSub/PubSub.cs:14-39 | any one call keeps every child binding and only extends the callback lists; a get-or-create leaves its key bound; each call leaves the parts it does not touch unchanged |
| `PubSub.Run` | PubSub/PubSub.cs:14-39 | after any sequence of calls every earlier child binding survives unchanged and each callback list has the earlier list as a prefix |
| `PubSub.RunPayloads` | PubSub/PubSub.cs:31-34 | after any sequence of calls, `payloads` is the earlier list followed by exactly the callbacks passed to `AddPayload`, in call order |
| `PubSub.RunWildcards` | PubSub/PubSub.cs:36-39 | after any sequence of calls, `wildcardListeners` is the earlier list followed by exactly the callbacks passed to `AddWildCard`, in call order |
| `PubSub.RunKeys` | PubSub/PubSub.cs:14-19 | after any sequence of calls, the keys of `children` are the earlier keys plus exactly the keys passed to `GetChild` |
| `PubSub.RunChild` | PubSub/PubSub.cs:16-18 | a key that had a child keeps that same child forever; a key that had none is bound to the node inserted by its first `GetChild` |
| `PubSub.RunSnoc` | PubSub/PubSub.cs:14-39 | one more call after a sequence of calls is one more `Apply` step after `Run`, so the per-method specifications compose into `Run` of the calls in order |
| `PubSub.GetChildTwice` | PubSub/PubSub.cs:16-18 | two `GetChild` calls with the same key return the same node, which is the one bound to the key; together they add at most that one binding and leave both callback lists unchanged |
| `PubSub.SnapshotsOutliveAppends` | PubSub/PubSub.cs:21-39 | snapshots taken before later appends to the node keep the contents the node had when they were taken, while the node's lists grow by the appended callback |
| `PubSub.SnapshotsAreIndependent` | PubSub/PubSub.cs:21-29 | appending to a snapshot changes only the snapshot: it holds the node's list plus the new element, and the node's lists are as before |

## Left out

- `Transmitter.Subscribe` and `Transmitter.Broadcast` (PubSub/PubSub.cs:49-57): their bodies are empty, so there is no topic walk, wildcard matching or type filtering to model.
- The `root` field (PubSub/PubSub.cs:47): it is an instance field declared in a static class, which C# does not accept, so no process-wide root node is modelled.
- The generic parameter `T` of `AddPayload<T>` and `AddWildCard<T>`: the callback is stored as a type-erased `Delegate`, so callbacks are an opaque type and neither type compatibility nor invocation is modelled.
- A `null` key: `Dictionary.ContainsKey` throws for it, but a Dafny `string` is never null, so that exception path is not modelled.
- `Dictionary.Add` throwing on a duplicate key: the `ContainsKey` guard makes it unreachable, so it is not modelled.
- The returned `List<Delegate>`: only its contents and `Add` are modelled (`CallbackList`), enough to state that a snapshot is independent of the node.
- PubSub.TreeNode.GetChild: `Valid` is not promised for an existing child it returns (only for a newly created one); `Valid` describes one node only, and carrying it down the tree would need a footprint for each subtree that every insertion below updates in all its ancestors.
- Thread safety: the class has no locking and the model is sequential.
