/** The linked list of one slot: insert_route, move_installed_route and flush_route
    rewrite its `next` pointers, and do to its contents what the selection
    functions say. */
module BabelRouteList {
  import opened Wrappers
  import opened BabelRoute

  /** struct babel_route with its link. */
  class Node {
    var route: Route
    var next: Node?

    constructor (route: Route)
      ensures this.route == route && next == null
    {
      this.route, next := route, null;
    }
  }

  ghost predicate Distinct(s: seq<Node>) {
    forall i, j :: 0 <= i < j < |s| ==> s[i] != s[j]
  }

  /** The node after the i-th, in the original order. */
  ghost function Following(s: seq<Node>, i: nat): Node? {
    if i + 1 < |s| then s[i + 1] else null
  }

  /** The nodes of a list in order, each once, the last one ending it. */
  ghost predicate Chain(s: seq<Node>)
    reads s`next
  {
    && s != []
    && Distinct(s)
    && (forall i {:trigger s[i].next} :: 0 <= i < |s| ==> s[i].next == Following(s, i))
  }

  ghost function Contents(s: seq<Node>): Slot
    reads s
    ensures |Contents(s)| == |s|
    ensures forall i :: 0 <= i < |s| ==> Contents(s)[i] == s[i].route
  {
    seq(|s|, i requires 0 <= i < |s| reads s => s[i].route)
  }

  ghost function ToFront(s: seq<Node>, k: nat): seq<Node>
    requires k < |s|
  {
    [s[k]] + s[..k] + s[k + 1..]
  }

  ghost function Without(s: seq<Node>, k: nat): seq<Node>
    requires k < |s|
  {
    s[..k] + s[k + 1..]
  }

  /** The walk to the node before a given one. */
  method Before(head: Node, x: Node, ghost s: seq<Node>, ghost k: nat) returns (r: Node)
    requires Chain(s) && head == s[0] && 0 < k < |s| && x == s[k]
    ensures r == s[k - 1]
  {
    r := head;
    ghost var i := 0;
    while r.next != x
      invariant 0 <= i < k && r == s[i]
      decreases k - i
    {
      r := r.next;
      i := i + 1;
    }
  }

  /** move_installed_route: the node becomes the head, the others keep their order. */
  method MoveInstalled(head: Node, x: Node, ghost s: seq<Node>, ghost k: nat) returns (h: Node)
    requires Chain(s) && head == s[0] && k < |s| && x == s[k]
    modifies s`next
    ensures h == x && Chain(ToFront(s, k))
    ensures Contents(ToFront(s, k)) == MoveToFront(old(Contents(s)), k)
  {
    MovedContents(s, k);
    h := x;
    if x == head {
      assert ToFront(s, k) == s;
    } else {
      Relink(head, x, s, k);
    }
  }

  method Relink(head: Node, x: Node, ghost s: seq<Node>, ghost k: nat)
    requires Chain(s) && head == s[0] && 0 < k < |s| && x == s[k]
    modifies s`next
    ensures Chain(ToFront(s, k))
  {
    var r := Before(head, x, s, k);
    r.next := x.next;
    x.next := head;
    ChainToFront(s, k);
  }

  /** The links move_installed_route leaves are those of the new order. */
  lemma {:induction false} ChainToFront(s: seq<Node>, k: nat)
    requires Distinct(s) && 0 < k < |s|
    requires s[k].next == s[0] && s[k - 1].next == Following(s, k)
    requires forall i {:trigger s[i].next} :: 0 <= i < |s| && i != k && i != k - 1 ==> s[i].next == Following(s, i)
    ensures Chain(ToFront(s, k))
  {
    var t := ToFront(s, k);
    assert forall i :: 0 <= i < |t| ==> t[i] == s[if i == 0 then k else if i <= k then i - 1 else i];
  }

  lemma {:induction false} ChainWithout(s: seq<Node>, k: nat)
    requires Distinct(s) && k < |s| && |s| > 1
    requires k > 0 ==> s[k - 1].next == Following(s, k)
    requires forall i {:trigger s[i].next} :: 0 <= i < |s| && i != k && i != k - 1 ==> s[i].next == Following(s, i)
    ensures Chain(Without(s, k))
  {
    var t := Without(s, k);
    assert forall i :: 0 <= i < |t| ==> t[i] == s[if i < k then i else i + 1];
  }

  lemma {:induction false} MovedContents(s: seq<Node>, k: nat)
    requires k < |s|
    ensures Contents(ToFront(s, k)) == MoveToFront(Contents(s), k)
  {}

  lemma {:induction false} RemovedContents(s: seq<Node>, k: nat)
    requires k < |s|
    ensures Contents(Without(s, k)) == Removed(Contents(s), k)
  {}

  /** insert_route's walk to the end of the list. */
  method Append(head: Node, x: Node, ghost s: seq<Node>)
    requires Chain(s) && head == s[0] && x !in s
    modifies s`next, x`next
    ensures Chain(s + [x]) && Contents(s + [x]) == old(Contents(s)) + [x.route]
  {
    var r := head;
    ghost var i := 0;
    while r.next != null
      invariant 0 <= i < |s| && r == s[i]
      decreases |s| - i
    {
      r := r.next;
      i := i + 1;
    }
    r.next := x;
    x.next := null;
  }

  /** flush_route's unlinking; the list may become empty. */
  method Unlink(head: Node, x: Node, ghost s: seq<Node>, ghost k: nat) returns (h: Node?)
    requires Chain(s) && head == s[0] && k < |s| && x == s[k]
    modifies s`next
    ensures x.next == null
    ensures h == if |s| == 1 then null else Without(s, k)[0]
    ensures |s| > 1 ==> Chain(Without(s, k))
    ensures Contents(Without(s, k)) == Removed(old(Contents(s)), k)
  {
    RemovedContents(s, k);
    if x == head {
      h := x.next;
      x.next := null;
      if |s| > 1 {
        ChainWithout(s, k);
      }
    } else {
      Bypass(head, x, s, k);
      h := head;
    }
  }

  method Bypass(head: Node, x: Node, ghost s: seq<Node>, ghost k: nat)
    requires Chain(s) && head == s[0] && 0 < k < |s| && x == s[k]
    modifies s`next
    ensures x.next == null && Chain(Without(s, k))
  {
    var r := Before(head, x, s, k);
    r.next := x.next;
    x.next := null;
    ChainWithout(s, k);
  }
}
