/**
 The `aria-owns` surgery of src/accessibility.rs: nodes are detached from the
 accessibility tree and re-attached under the element that claims them.
 */
module AriaOwns {
  import opened Common

  /** An accessibility node, reduced to its DOM identity and its children. */
  datatype Ax = Ax(id: nat, children: seq<Ax>)

  // ----- the tree operations of the source -----

  function Find(t: Ax, id: nat): Option<Ax> {
    if t.id == id then Some(t) else FindAny(t.children, id)
  }

  function FindAny(ts: seq<Ax>, id: nat): Option<Ax> {
    if ts == [] then None
    else if Find(ts[0], id).Some? then Find(ts[0], id)
    else FindAny(ts[1..], id)
  }

  predicate Contains(t: Ax, id: nat) { Find(t, id).Some? }

  /** The first position whose node has the identity, or the length if there is none. */
  function Position(ts: seq<Ax>, id: nat): (k: nat)
    ensures k <= |ts| && (k < |ts| ==> ts[k].id == id)
    ensures forall i :: 0 <= i < k ==> ts[i].id != id
  {
    if ts == [] || ts[0].id == id then 0 else 1 + Position(ts[1..], id)
  }

  datatype Detached = Detached(found: Option<Ax>, tree: Ax)
  datatype DetachedAny = DetachedAny(found: Option<Ax>, trees: seq<Ax>)

  /** Removes a node below `t`: a direct child first, then the first child that has it. */
  function Detach(t: Ax, id: nat): Detached {
    var k := Position(t.children, id);
    if k < |t.children| then
      Detached(Some(t.children[k]), Ax(t.id, t.children[..k] + t.children[k + 1..]))
    else
      var r := DetachAny(t.children, id);
      Detached(r.found, Ax(t.id, r.trees))
  }

  function DetachAny(ts: seq<Ax>, id: nat): DetachedAny {
    if ts == [] then DetachedAny(None, [])
    else
      var r := Detach(ts[0], id);
      if r.found.Some? then DetachedAny(r.found, [r.tree] + ts[1..])
      else
        var rest := DetachAny(ts[1..], id);
        DetachedAny(rest.found, [r.tree] + rest.trees)
  }

  /** Appends `node` to the children of the first node with identity `owner`. */
  function Attach(t: Ax, owner: nat, node: Ax): Ax {
    if t.id == owner then Ax(t.id, t.children + [node]) else Ax(t.id, AttachAny(t.children, owner, node))
  }

  function AttachAny(ts: seq<Ax>, owner: nat, node: Ax): seq<Ax> {
    if ts == [] then []
    else if Contains(ts[0], owner) then [Attach(ts[0], owner, node)] + ts[1..]
    else [ts[0]] + AttachAny(ts[1..], owner, node)
  }

  // ----- the loop body as a function -----

  datatype Claim = Claim(owner: nat, target: nat)

  /** `claims` in the order made; `built` are the subtrees made for targets missing from the tree. */
  datatype Surgery = Surgery(root: Ax, claims: seq<Claim>, built: seq<Ax>)

  ghost predicate Claimed(claims: seq<Claim>, target: nat) {
    exists i :: 0 <= i < |claims| && claims[i].target == target
  }

  /**
   The DOM and the tree builder as the surgery sees them: whether one node contains
   another, and the children of the accessibility node built for a node, if it gets one.
   */
  datatype Dom = Dom(contains: (nat, nat) -> bool, children: nat -> Option<seq<Ax>>) {
    /** `build_node`, which knows nothing of the accessibility tree so far. */
    function Build(id: nat): Option<Ax> {
      if children(id).Some? then Some(Ax(id, children(id).value)) else None
    }
  }

  /** None of the guards rejects the pair. */
  ghost predicate Able(dom: Dom, s: Surgery, c: Claim) {
    && c.owner != c.target && !Claimed(s.claims, c.target)
    && Contains(s.root, c.owner)
    && !dom.contains(c.target, c.owner)
    && !(Contains(s.root, c.target) && Contains(Find(s.root, c.target).value, c.owner))
    && (Detach(s.root, c.target).found.Some? || dom.Build(c.target).Some?)
  }

  ghost function Own(dom: Dom, s: Surgery, c: Claim): Surgery {
    if !Able(dom, s, c) then s
    else
      var d := Detach(s.root, c.target);
      var built := if d.found.Some? then [] else [dom.Build(c.target).value];
      var node := if d.found.Some? then d.found.value else built[0];
      if !Contains(d.tree, c.owner) then s.(root := d.tree)
      else Surgery(Attach(d.tree, c.owner, node), s.claims + [c], s.built + built)
  }

  ghost function OwnAll(dom: Dom, root: Ax, ownership: seq<Claim>): Surgery {
    if ownership == [] then Surgery(root, [], [])
    else Own(dom, OwnAll(dom, root, ownership[..|ownership| - 1]), ownership[|ownership| - 1])
  }

  // ----- identities and child lists -----

  /** How often the identity occurs in the tree. */
  ghost function Count(t: Ax, x: nat): nat { (if t.id == x then 1 else 0) + CountOf(t.children, x) }

  ghost function CountOf(ts: seq<Ax>, x: nat): nat {
    if ts == [] then 0 else Count(ts[0], x) + CountOf(ts[1..], x)
  }

  ghost predicate Distinct(t: Ax) { forall x: nat :: Count(t, x) <= 1 }

  ghost predicate Apart(a: Ax, b: Ax) { forall x: nat :: Count(a, x) + Count(b, x) <= 1 }

  /** If this turn builds its target, nothing in the built subtree is in the tree or there twice. */
  ghost predicate FreshAt(dom: Dom, s: Surgery, c: Claim) {
    Able(dom, s, c) && Detach(s.root, c.target).found.None? ==> Apart(s.root, dom.Build(c.target).value)
  }

  /** So it is at every turn of the loop. */
  ghost predicate BuildsFresh(dom: Dom, root: Ax, ownership: seq<Claim>) {
    forall i :: 0 <= i < |ownership| ==> FreshAt(dom, OwnAll(dom, root, ownership[..i]), ownership[i])
  }

  function Heads(ts: seq<Ax>): seq<nat> { seq(|ts|, i requires 0 <= i < |ts| => ts[i].id) }

  /** The identities of the children of node `p`, in order. */
  ghost function Kids(t: Ax, p: nat): Option<seq<nat>> {
    if t.id == p then Some(Heads(t.children)) else KidsOf(t.children, p)
  }

  ghost function KidsOf(ts: seq<Ax>, p: nat): Option<seq<nat>> {
    if ts == [] then None else Either(Kids(ts[0], p), KidsOf(ts[1..], p))
  }

  ghost function Either(a: Option<seq<nat>>, b: Option<seq<nat>>): Option<seq<nat>> {
    if a.Some? then a else b
  }

  ghost function Minus(ks: seq<nat>, x: nat): seq<nat> {
    if ks == [] then [] else (if ks[0] == x then [] else [ks[0]]) + Minus(ks[1..], x)
  }

  ghost function Over(k: Option<seq<nat>>, x: nat): Option<seq<nat>> {
    if k.None? then None else Some(Minus(k.value, x))
  }

  // ----- facts about sequences of trees -----

  lemma {:induction false} CountOfConcat(a: seq<Ax>, b: seq<Ax>, x: nat)
    ensures CountOf(a + b, x) == CountOf(a, x) + CountOf(b, x)
  {
    if a == [] {
      assert a + b == b;
    } else {
      assert (a + b)[1..] == a[1..] + b;
      CountOfConcat(a[1..], b, x);
    }
  }

  lemma {:induction false} KidsOfConcat(a: seq<Ax>, b: seq<Ax>, p: nat)
    ensures KidsOf(a + b, p) == Either(KidsOf(a, p), KidsOf(b, p))
  {
    if a == [] {
      assert a + b == b;
    } else {
      assert (a + b)[1..] == a[1..] + b;
      KidsOfConcat(a[1..], b, p);
    }
  }

  /** Both of the above for one tree in front. */
  lemma Cons(t: Ax, rest: seq<Ax>, x: nat)
    ensures CountOf([t] + rest, x) == Count(t, x) + CountOf(rest, x)
    ensures KidsOf([t] + rest, x) == Either(Kids(t, x), KidsOf(rest, x))
    ensures Heads([t] + rest) == [t.id] + Heads(rest)
  {
    assert ([t] + rest)[1..] == rest;
  }

  lemma SplitCount(ts: seq<Ax>, k: nat, x: nat)
    requires k < |ts|
    ensures CountOf(ts, x) == CountOf(ts[..k], x) + Count(ts[k], x) + CountOf(ts[k + 1..], x)
    ensures CountOf(ts[..k] + ts[k + 1..], x) == CountOf(ts[..k], x) + CountOf(ts[k + 1..], x)
  {
    var one := [ts[k]] + ts[k + 1..];
    assert ts == ts[..k] + one;
    Cons(ts[k], ts[k + 1..], x);
    CountOfConcat(ts[..k], one, x);
    CountOfConcat(ts[..k], ts[k + 1..], x);
  }

  lemma SplitKids(ts: seq<Ax>, k: nat, x: nat)
    requires k < |ts|
    ensures KidsOf(ts, x) == Either(KidsOf(ts[..k], x), Either(Kids(ts[k], x), KidsOf(ts[k + 1..], x)))
    ensures KidsOf(ts[..k] + ts[k + 1..], x) == Either(KidsOf(ts[..k], x), KidsOf(ts[k + 1..], x))
  {
    var one := [ts[k]] + ts[k + 1..];
    assert ts == ts[..k] + one;
    Cons(ts[k], ts[k + 1..], x);
    KidsOfConcat(ts[..k], one, x);
    KidsOfConcat(ts[..k], ts[k + 1..], x);
  }

  lemma SplitHeads(ts: seq<Ax>, k: nat)
    requires k < |ts|
    ensures Heads(ts) == Heads(ts[..k]) + ([ts[k].id] + Heads(ts[k + 1..]))
    ensures Heads(ts[..k] + ts[k + 1..]) == Heads(ts[..k]) + Heads(ts[k + 1..])
  {
  }

  /** A child at position `k`, taken out of its siblings. */
  lemma SplitAt(ts: seq<Ax>, k: nat, x: nat)
    requires k < |ts|
    ensures CountOf(ts, x) == CountOf(ts[..k] + ts[k + 1..], x) + Count(ts[k], x)
    ensures CountOf(ts[..k] + ts[k + 1..], x) == CountOf(ts[..k], x) + CountOf(ts[k + 1..], x)
    ensures KidsOf(ts, x) == Either(KidsOf(ts[..k], x), Either(Kids(ts[k], x), KidsOf(ts[k + 1..], x)))
    ensures KidsOf(ts[..k] + ts[k + 1..], x) == Either(KidsOf(ts[..k], x), KidsOf(ts[k + 1..], x))
    ensures Heads(ts) == Heads(ts[..k]) + ([ts[k].id] + Heads(ts[k + 1..]))
    ensures Heads(ts[..k] + ts[k + 1..]) == Heads(ts[..k]) + Heads(ts[k + 1..])
  {
    SplitCount(ts, k, x);
    SplitKids(ts, k, x);
    SplitHeads(ts, k);
  }

  lemma {:induction false} MinusConcat(a: seq<nat>, b: seq<nat>, x: nat)
    ensures Minus(a + b, x) == Minus(a, x) + Minus(b, x)
  {
    if a == [] {
      assert a + b == b;
    } else {
      assert (a + b)[1..] == a[1..] + b;
      MinusConcat(a[1..], b, x);
    }
  }

  lemma {:induction false} MinusAbsent(ks: seq<nat>, x: nat)
    requires x !in ks
    ensures Minus(ks, x) == ks
  {
    if ks != [] {
      MinusAbsent(ks[1..], x);
    }
  }

  /** A node is found, has a child list, and is counted, all at the same time. */
  lemma {:induction false} Present(t: Ax, p: nat)
    ensures Kids(t, p).Some? <==> Count(t, p) > 0
    ensures Find(t, p).Some? <==> Count(t, p) > 0
    ensures Find(t, p).Some? ==> Find(t, p).value.id == p
    decreases t, 1
  {
    PresentIn(t.children, p);
  }

  lemma {:induction false} PresentIn(ts: seq<Ax>, p: nat)
    ensures KidsOf(ts, p).Some? <==> CountOf(ts, p) > 0
    ensures FindAny(ts, p).Some? <==> CountOf(ts, p) > 0
    ensures FindAny(ts, p).Some? ==> FindAny(ts, p).value.id == p
    decreases ts, 0
  {
    if ts != [] {
      Present(ts[0], p);
      PresentIn(ts[1..], p);
    }
  }

  /** Every child listed anywhere in the tree is counted below its root. */
  lemma {:induction false} KidsAreCounted(t: Ax, p: nat, c: nat)
    requires Kids(t, p).Some? && c in Kids(t, p).value
    ensures CountOf(t.children, c) > 0
    decreases t, 1
  {
    if t.id == p {
      HeadsAreCounted(t.children, c);
    } else {
      KidsOfAreCounted(t.children, p, c);
    }
  }

  lemma {:induction false} KidsOfAreCounted(ts: seq<Ax>, p: nat, c: nat)
    requires KidsOf(ts, p).Some? && c in KidsOf(ts, p).value
    ensures CountOf(ts, c) > 0
    decreases ts, 0
  {
    if Kids(ts[0], p).Some? {
      KidsAreCounted(ts[0], p, c);
    } else {
      KidsOfAreCounted(ts[1..], p, c);
    }
  }

  lemma {:induction false} HeadsAreCounted(ts: seq<Ax>, c: nat)
    requires c in Heads(ts)
    ensures CountOf(ts, c) > 0
  {
    if ts[0].id != c {
      assert Heads(ts)[1..] == Heads(ts[1..]);
      HeadsAreCounted(ts[1..], c);
    }
  }

  // ----- detaching -----

  /** A detach finds every node below the root, and splits the identities. */
  lemma {:induction false} DetachSplits(t: Ax, x: nat, y: nat)
    ensures var d := Detach(t, x);
      && d.tree.id == t.id
      && (d.found.Some? <==> CountOf(t.children, x) > 0)
      && (d.found.None? ==> d.tree == t)
      && (d.found.Some? ==> d.found.value.id == x && Count(t, y) == Count(d.tree, y) + Count(d.found.value, y))
    decreases t, 1
  {
    var k := Position(t.children, x);
    if k < |t.children| {
      SplitAt(t.children, k, x);
      SplitAt(t.children, k, y);
    } else {
      DetachAnySplits(t.children, x, y);
    }
  }

  lemma {:induction false} DetachAnySplits(ts: seq<Ax>, x: nat, y: nat)
    requires forall i :: 0 <= i < |ts| ==> ts[i].id != x
    ensures var d := DetachAny(ts, x);
      && (d.found.Some? <==> CountOf(ts, x) > 0)
      && (d.found.None? ==> d.trees == ts)
      && (d.found.Some? ==> d.found.value.id == x && CountOf(ts, y) == CountOf(d.trees, y) + Count(d.found.value, y))
      && Heads(d.trees) == Heads(ts)
    decreases ts, 0
  {
    if ts != [] {
      var head, rest := ts[0], ts[1..];
      DetachSplits(head, x, y);
      DetachAnySplits(rest, x, y);
      var d := Detach(head, x);
      assert ts == [head] + rest;
      Cons(head, rest, y);
      Cons(d.tree, rest, y);
      Cons(d.tree, DetachAny(rest, x).trees, y);
    }
  }

  lemma Unlisted(t: Ax, x: nat, p: nat)
    requires CountOf(t.children, x) == 0
    ensures Over(Kids(t, p), x) == Kids(t, p)
  {
    if Kids(t, p).Some? {
      if x in Kids(t, p).value { KidsAreCounted(t, p, x); }
      MinusAbsent(Kids(t, p).value, x);
    }
  }

  lemma UnlistedIn(ts: seq<Ax>, x: nat, p: nat)
    requires CountOf(ts, x) == 0
    ensures Over(KidsOf(ts, p), x) == KidsOf(ts, p)
  {
    if KidsOf(ts, p).Some? {
      if x in KidsOf(ts, p).value { KidsOfAreCounted(ts, p, x); }
      MinusAbsent(KidsOf(ts, p).value, x);
    }
  }

  /** Child lists after a detach: the moved node leaves its parent's list, all others stay as they were. */
  lemma {:induction false} DetachKids(t: Ax, x: nat, p: nat)
    requires Count(t, x) <= 1 && Count(t, p) <= 1 && CountOf(t.children, x) > 0
    ensures var d := Detach(t, x);
      d.found.Some? && Over(Kids(t, p), x) == Either(Kids(d.tree, p), Kids(d.found.value, p))
    decreases t, 1
  {
    DetachSplits(t, x, p);
    var k := Position(t.children, x);
    if k < |t.children| {
      DetachChildKids(t, x, p, k);
    } else {
      DetachAnyKids(t.children, x, p);
      DetachAnySplits(t.children, x, p);
      MinusAbsent(Heads(t.children), x);
    }
  }

  lemma DetachChildKids(t: Ax, x: nat, p: nat, k: nat)
    requires Count(t, x) <= 1 && Count(t, p) <= 1 && k == Position(t.children, x) < |t.children|
    ensures var d := Detach(t, x);
      Over(Kids(t, p), x) == Either(Kids(d.tree, p), Kids(d.found.value, p))
  {
    var before, node, after := t.children[..k], t.children[k], t.children[k + 1..];
    SplitAt(t.children, k, x);
    SplitAt(t.children, k, p);
    if p == t.id {
      if x in Heads(before) { HeadsAreCounted(before, x); }
      if x in Heads(after) { HeadsAreCounted(after, x); }
      MinusConcat(Heads(before), [x] + Heads(after), x);
      assert ([x] + Heads(after))[1..] == Heads(after);
      assert Minus([x] + Heads(after), x) == Minus(Heads(after), x);
      MinusAbsent(Heads(before), x);
      MinusAbsent(Heads(after), x);
    } else {
      UnlistedIn(before, x, p);
      UnlistedIn(after, x, p);
      Unlisted(node, x, p);
      PresentIn(after, p);
      Present(node, p);
    }
  }

  lemma {:induction false} DetachAnyKids(ts: seq<Ax>, x: nat, p: nat)
    requires CountOf(ts, x) == 1 && CountOf(ts, p) <= 1 && forall i :: 0 <= i < |ts| ==> ts[i].id != x
    ensures var d := DetachAny(ts, x);
      d.found.Some? && Over(KidsOf(ts, p), x) == Either(KidsOf(d.trees, p), Kids(d.found.value, p))
    decreases ts, 0
  {
    var head, rest := ts[0], ts[1..];
    DetachSplits(head, x, p);
    var d := Detach(head, x);
    if d.found.Some? {
      DetachKids(head, x, p);
      UnlistedIn(rest, x, p);
      Cons(d.tree, rest, p);
      PresentIn(rest, p);
      Present(d.found.value, p);
    } else {
      DetachAnyKids(rest, x, p);
      Unlisted(head, x, p);
      Cons(head, DetachAny(rest, x).trees, p);
    }
  }

  // ----- attaching -----

  lemma {:induction false} AttachAdds(t: Ax, owner: nat, node: Ax, y: nat)
    requires Contains(t, owner)
    ensures Attach(t, owner, node).id == t.id
    ensures Count(Attach(t, owner, node), y) == Count(t, y) + Count(node, y)
    decreases t, 1
  {
    if t.id == owner {
      CountOfConcat(t.children, [node], y);
      Cons(node, [], y);
    } else {
      AttachAnyAdds(t.children, owner, node, y);
    }
  }

  lemma {:induction false} AttachAnyAdds(ts: seq<Ax>, owner: nat, node: Ax, y: nat)
    requires FindAny(ts, owner).Some?
    ensures Heads(AttachAny(ts, owner, node)) == Heads(ts)
    ensures CountOf(AttachAny(ts, owner, node), y) == CountOf(ts, y) + Count(node, y)
    decreases ts, 0
  {
    var head, rest := ts[0], ts[1..];
    assert ts == [head] + rest;
    Cons(head, rest, y);
    if Contains(head, owner) {
      AttachAdds(head, owner, node, y);
      Cons(Attach(head, owner, node), rest, y);
    } else {
      AttachAnyAdds(rest, owner, node, y);
      Cons(head, AttachAny(rest, owner, node), y);
    }
  }

  ghost function Appended(k: Option<seq<nat>>, own: bool, x: nat): Option<seq<nat>> {
    if k.Some? && own then Some(k.value + [x]) else k
  }

  lemma {:induction false} AttachKids(t: Ax, owner: nat, node: Ax, p: nat)
    requires Contains(t, owner) && Count(t, owner) <= 1 && Count(t, p) + Count(node, p) <= 1
    ensures Kids(Attach(t, owner, node), p) == Either(Appended(Kids(t, p), p == owner, node.id), Kids(node, p))
    decreases t, 1
  {
    if t.id == owner {
      KidsOfConcat(t.children, [node], p);
      Cons(node, [], p);
      Present(node, p);
      PresentIn(t.children, p);
      assert Heads(t.children + [node]) == Heads(t.children) + [node.id];
    } else {
      AttachAnyAdds(t.children, owner, node, p);
      AttachAnyKids(t.children, owner, node, p);
    }
  }

  lemma {:induction false} AttachAnyKids(ts: seq<Ax>, owner: nat, node: Ax, p: nat)
    requires FindAny(ts, owner).Some? && CountOf(ts, owner) <= 1 && CountOf(ts, p) + Count(node, p) <= 1
    ensures KidsOf(AttachAny(ts, owner, node), p) == Either(Appended(KidsOf(ts, p), p == owner, node.id), Kids(node, p))
    decreases ts, 0
  {
    var head, rest := ts[0], ts[1..];
    Present(head, owner);
    PresentIn(rest, owner);
    Present(head, p);
    PresentIn(rest, p);
    Present(node, p);
    if Contains(head, owner) {
      AttachKids(head, owner, node, p);
      Cons(Attach(head, owner, node), rest, p);
    } else {
      AttachAnyKids(rest, owner, node, p);
      Cons(head, AttachAny(rest, owner, node), p);
    }
  }

  /** With distinct identities, detaching takes the very node a search finds. */
  lemma {:induction false} DetachTakesFound(t: Ax, x: nat)
    requires Count(t, x) <= 1 && CountOf(t.children, x) > 0
    ensures Detach(t, x).found == Find(t, x)
    decreases t, 1
  {
    var k := Position(t.children, x);
    if k < |t.children| {
      FirstFound(t.children, x, k);
    } else {
      DetachAnyTakesFound(t.children, x);
    }
  }

  lemma {:induction false} FirstFound(ts: seq<Ax>, x: nat, k: nat)
    requires k < |ts| && ts[k].id == x && CountOf(ts, x) <= 1
    ensures FindAny(ts, x) == Some(ts[k])
  {
    Present(ts[0], x);
    if k > 0 {
      FirstFound(ts[1..], x, k - 1);
      PresentIn(ts[1..], x);
    }
  }

  lemma {:induction false} DetachAnyTakesFound(ts: seq<Ax>, x: nat)
    requires CountOf(ts, x) == 1 && forall i :: 0 <= i < |ts| ==> ts[i].id != x
    ensures DetachAny(ts, x).found == FindAny(ts, x)
    decreases ts, 0
  {
    Present(ts[0], x);
    DetachSplits(ts[0], x, x);
    if Contains(ts[0], x) {
      DetachTakesFound(ts[0], x);
    } else {
      DetachAnyTakesFound(ts[1..], x);
    }
  }

  // ----- one turn of the loop -----

  /** The node that an accepted pair moves. */
  ghost function Moved(dom: Dom, s: Surgery, c: Claim): Ax
    requires Able(dom, s, c)
  {
    var d := Detach(s.root, c.target);
    if d.found.Some? then d.found.value else dom.Build(c.target).value
  }

  ghost function NewlyBuilt(dom: Dom, s: Surgery, c: Claim): seq<Ax>
    requires Able(dom, s, c)
  {
    if Detach(s.root, c.target).found.Some? then [] else [dom.Build(c.target).value]
  }

  /** After the guards, the owner is still in the tree once its target has been taken out. */
  lemma OwnerSurvives(dom: Dom, s: Surgery, c: Claim)
    requires Distinct(s.root) && FreshAt(dom, s, c) && Able(dom, s, c)
    ensures Contains(Detach(s.root, c.target).tree, c.owner)
    ensures Count(Moved(dom, s, c), c.owner) == 0 && Moved(dom, s, c).id == c.target
  {
    var d := Detach(s.root, c.target);
    DetachSplits(s.root, c.target, c.owner);
    Present(s.root, c.owner);
    Present(s.root, c.target);
    Present(d.tree, c.owner);
    if d.found.Some? {
      DetachTakesFound(s.root, c.target);
      Present(d.found.value, c.owner);
    } else {
      var b := dom.Build(c.target).value;
      assert Count(s.root, c.owner) + Count(b, c.owner) <= 1;
    }
  }

  lemma OwnCounts(dom: Dom, s: Surgery, c: Claim, y: nat)
    requires Distinct(s.root) && FreshAt(dom, s, c) && Able(dom, s, c)
    ensures Count(Own(dom, s, c).root, y) == Count(s.root, y) + CountOf(NewlyBuilt(dom, s, c), y) <= 1
    ensures Count(Detach(s.root, c.target).tree, y) + Count(Moved(dom, s, c), y) <= 1
    ensures Own(dom, s, c).root.id == s.root.id
  {
    OwnerSurvives(dom, s, c);
    var d := Detach(s.root, c.target);
    DetachSplits(s.root, c.target, y);
    DetachSplits(s.root, c.target, c.target);
    AttachAdds(d.tree, c.owner, Moved(dom, s, c), y);
    if d.found.None? {
      var b := dom.Build(c.target).value;
      Present(s.root, c.target);
      assert Count(s.root, c.target) == 0;
      assert Count(s.root, y) + Count(b, y) <= 1;
      Cons(b, [], y);
    }
  }

  lemma OwnKids(dom: Dom, s: Surgery, c: Claim, p: nat)
    requires Distinct(s.root) && FreshAt(dom, s, c) && Able(dom, s, c)
    ensures Kids(Own(dom, s, c).root, p) ==
            Appended(Over(Either(Kids(s.root, p), KidsOf(NewlyBuilt(dom, s, c), p)), c.target), p == c.owner, c.target)
  {
    OwnerSurvives(dom, s, c);
    OwnCounts(dom, s, c, p);
    OwnCounts(dom, s, c, c.owner);
    OwnCounts(dom, s, c, c.target);
    var d, m := Detach(s.root, c.target), Moved(dom, s, c);
    DetachSplits(s.root, c.target, c.target);
    AttachKids(d.tree, c.owner, m, p);
    Present(m, p);
    if d.found.Some? {
      DetachKids(s.root, c.target, p);
    } else {
      Cons(m, [], p);
      Unlisted(m, c.target, p);
      Present(s.root, c.target);
      UnlistedIn(s.root.children, c.target, p);
      Unlisted(s.root, c.target, p);
    }
  }

  // ----- the whole loop -----

  /** The list without any claimed target. */
  ghost function Unclaimed(ks: seq<nat>, claims: seq<Claim>): seq<nat> {
    if claims == [] then ks else Minus(Unclaimed(ks, claims[..|claims| - 1]), claims[|claims| - 1].target)
  }

  /** The targets `p` claimed, in the order of the claims. */
  ghost function TakenBy(claims: seq<Claim>, p: nat): seq<nat> {
    if claims == [] then []
    else
      var last := claims[|claims| - 1];
      TakenBy(claims[..|claims| - 1], p) + (if last.owner == p then [last.target] else [])
  }

  ghost function Rearranged(k: Option<seq<nat>>, claims: seq<Claim>, p: nat): Option<seq<nat>> {
    if k.None? then None else Some(Unclaimed(k.value, claims) + TakenBy(claims, p))
  }

  lemma {:induction false} TakenAreClaimed(claims: seq<Claim>, p: nat)
    ensures forall x :: x in TakenBy(claims, p) ==> Claimed(claims, x)
    ensures (exists i :: 0 <= i < |claims| && claims[i].owner == p) || TakenBy(claims, p) == []
  {
    if claims != [] {
      var before := claims[..|claims| - 1];
      TakenAreClaimed(before, p);
      forall x | x in TakenBy(claims, p) ensures Claimed(claims, x) {
        if x in TakenBy(before, p) {
          var i :| 0 <= i < |before| && before[i].target == x;
          assert claims[i].target == x;
        } else {
          assert claims[|claims| - 1].target == x;
        }
      }
    }
  }

  lemma {:induction false} NothingClaimed(ks: seq<nat>, claims: seq<Claim>)
    requires forall i :: 0 <= i < |claims| ==> claims[i].target !in ks
    ensures Unclaimed(ks, claims) == ks
  {
    if claims != [] {
      NothingClaimed(ks, claims[..|claims| - 1]);
      MinusAbsent(ks, claims[|claims| - 1].target);
    }
  }

  ghost predicate Sound(root: Ax, s: Surgery) {
    && Distinct(s.root) && s.root.id == root.id
    && (forall y: nat :: Count(s.root, y) == Count(root, y) + CountOf(s.built, y))
    && (forall i :: 0 <= i < |s.claims| ==> Count(s.root, s.claims[i].owner) == 1 && Count(s.root, s.claims[i].target) == 1)
    && (forall i, j :: 0 <= i < j < |s.claims| ==> s.claims[i].target != s.claims[j].target)
    && (forall p: nat :: Kids(s.root, p) == Rearranged(KidsOf([root] + s.built, p), s.claims, p))
  }

  /** One more claim, seen from the child list of `p`. */
  lemma OneMoreClaim(k: Option<seq<nat>>, claims: seq<Claim>, c: Claim, p: nat)
    requires !Claimed(claims, c.target)
    ensures Appended(Over(Rearranged(k, claims, p), c.target), p == c.owner, c.target) == Rearranged(k, claims + [c], p)
  {
    if k.Some? {
      assert (claims + [c])[..|claims|] == claims;
      var left, taken := Unclaimed(k.value, claims), TakenBy(claims, p);
      var mine := if c.owner == p then [c.target] else [];
      TakenAreClaimed(claims, p);
      MinusConcat(left, taken, c.target);
      MinusAbsent(taken, c.target);
      assert (Minus(left, c.target) + taken) + mine == Minus(left, c.target) + (taken + mine);
      assert (Minus(left, c.target) + taken) + [] == Minus(left, c.target) + taken;
    }
  }

  lemma OwnKeepsKids(dom: Dom, root: Ax, s: Surgery, c: Claim, p: nat)
    requires Sound(root, s) && FreshAt(dom, s, c) && Able(dom, s, c)
    ensures var t := Own(dom, s, c);
      Kids(t.root, p) == Rearranged(KidsOf([root] + t.built, p), t.claims, p)
  {
    var t, nb := Own(dom, s, c), NewlyBuilt(dom, s, c);
    OwnerSurvives(dom, s, c);
    OwnKids(dom, s, c, p);
    assert [root] + t.built == ([root] + s.built) + nb;
    KidsOfConcat([root] + s.built, nb, p);
    var k := KidsOf([root] + t.built, p);
    OneMoreClaim(k, s.claims, c, p);
    if Kids(s.root, p).None? && k.Some? {
      NewNodesAreUnclaimed(dom, root, s, c, p);
      assert k.value + [] == k.value;
    }
  }

  /** What was just built mentions nothing the loop has touched before. */
  lemma NewNodesAreUnclaimed(dom: Dom, root: Ax, s: Surgery, c: Claim, p: nat)
    requires Sound(root, s) && FreshAt(dom, s, c) && Able(dom, s, c) && KidsOf(NewlyBuilt(dom, s, c), p).Some?
    ensures Unclaimed(KidsOf(NewlyBuilt(dom, s, c), p).value, s.claims) == KidsOf(NewlyBuilt(dom, s, c), p).value
    ensures TakenBy(s.claims, p) == []
  {
    var nb := NewlyBuilt(dom, s, c);
    var ks := KidsOf(nb, p).value;
    forall i | 0 <= i < |s.claims| ensures s.claims[i].target !in ks && s.claims[i].owner != p {
      OwnCounts(dom, s, c, s.claims[i].target);
      OwnCounts(dom, s, c, s.claims[i].owner);
      PresentIn(nb, p);
      if s.claims[i].target in ks { KidsOfAreCounted(nb, p, s.claims[i].target); }
    }
    NothingClaimed(ks, s.claims);
    TakenAreClaimed(s.claims, p);
  }

  lemma OwnKeepsSound(dom: Dom, root: Ax, s: Surgery, c: Claim)
    requires Sound(root, s) && FreshAt(dom, s, c)
    ensures Sound(root, Own(dom, s, c))
  {
    if Able(dom, s, c) {
      var t, nb := Own(dom, s, c), NewlyBuilt(dom, s, c);
      OwnerSurvives(dom, s, c);
      forall y: nat ensures Count(t.root, y) == Count(root, y) + CountOf(t.built, y) && Count(s.root, y) <= Count(t.root, y) <= 1 {
        OwnCounts(dom, s, c, y);
        CountOfConcat(s.built, nb, y);
      }
      OwnCounts(dom, s, c, c.target);
      assert Count(t.root, c.target) == 1 by {
        DetachSplits(s.root, c.target, c.target);
        AttachAdds(Detach(s.root, c.target).tree, c.owner, Moved(dom, s, c), c.target);
      }
      assert Count(t.root, c.owner) == 1 by { Present(s.root, c.owner); }
      forall p: nat ensures Kids(t.root, p) == Rearranged(KidsOf([root] + t.built, p), t.claims, p) {
        OwnKeepsKids(dom, root, s, c, p);
      }
    }
  }

  lemma FreshBefore(dom: Dom, root: Ax, ownership: seq<Claim>, j: nat)
    requires j <= |ownership| && BuildsFresh(dom, root, ownership)
    ensures BuildsFresh(dom, root, ownership[..j])
  {
    var before := ownership[..j];
    forall i | 0 <= i < j ensures FreshAt(dom, OwnAll(dom, root, before[..i]), before[i]) {
      assert before[..i] == ownership[..i];
    }
  }

  /**
   The surgery neither loses nor duplicates a node and never makes a cycle: it keeps
   the identities (adding only those of built targets), and the children of every node
   are its former children that nobody claimed, followed by the targets it claimed.
   */
  lemma {:induction false} SurgeryIsSound(dom: Dom, root: Ax, ownership: seq<Claim>)
    requires Distinct(root) && BuildsFresh(dom, root, ownership)
    ensures Sound(root, OwnAll(dom, root, ownership))
  {
    if ownership == [] {
      forall p: nat ensures Kids(root, p) == Rearranged(KidsOf([root] + [], p), [], p) {
        assert [root] + [] == [root];
        Cons(root, [], p);
        if Kids(root, p).Some? { assert Kids(root, p).value + [] == Kids(root, p).value; }
      }
    } else {
      FreshBefore(dom, root, ownership, |ownership| - 1);
      SurgeryIsSound(dom, root, ownership[..|ownership| - 1]);
      OwnKeepsSound(dom, root, OwnAll(dom, root, ownership[..|ownership| - 1]), ownership[|ownership| - 1]);
    }
  }

  /** Claims are only ever added. */
  lemma {:induction false} ClaimsGrow(dom: Dom, root: Ax, ownership: seq<Claim>, i: nat)
    requires i <= |ownership|
    ensures OwnAll(dom, root, ownership[..i]).claims <= OwnAll(dom, root, ownership).claims
  {
    if i == |ownership| {
      assert ownership[..i] == ownership;
    } else {
      var before := ownership[..|ownership| - 1];
      ClaimsGrow(dom, root, before, i);
      assert before[..i] == ownership[..i];
    }
  }

  /**
   The first pair that passes the guards gets the target for good: it is claimed by
   that owner, no earlier pair with this target passed, and in the tree after every
   later turn the target is still a child of that owner.
   */
  lemma FirstAbleOwnerKeeps(dom: Dom, root: Ax, ownership: seq<Claim>, i: nat, j: nat)
    requires Distinct(root) && BuildsFresh(dom, root, ownership) && i < |ownership|
    requires Able(dom, OwnAll(dom, root, ownership[..i]), ownership[i])
    requires i < j <= |ownership|
    ensures var c, f := ownership[i], OwnAll(dom, root, ownership[..j]);
      c in f.claims && Kids(f.root, c.owner).Some? && c.target in Kids(f.root, c.owner).value
    ensures forall e :: 0 <= e < i && ownership[e].target == ownership[i].target ==>
              !Able(dom, OwnAll(dom, root, ownership[..e]), ownership[e])
  {
    ClaimedAt(dom, root, ownership, i, j);
    var c, f := ownership[i], OwnAll(dom, root, ownership[..j]);
    FreshBefore(dom, root, ownership, j);
    SurgeryIsSound(dom, root, ownership[..j]);
    Present(f.root, c.owner);
    TakenIsListed(f.claims, c);
    forall e | 0 <= e < i && ownership[e].target == c.target
      ensures !Able(dom, OwnAll(dom, root, ownership[..e]), ownership[e])
    {
      if Able(dom, OwnAll(dom, root, ownership[..e]), ownership[e]) {
        ClaimedAt(dom, root, ownership, e, i);
      }
    }
  }

  lemma ClaimedAt(dom: Dom, root: Ax, ownership: seq<Claim>, i: nat, j: nat)
    requires Distinct(root) && BuildsFresh(dom, root, ownership) && i < j <= |ownership|
    requires Able(dom, OwnAll(dom, root, ownership[..i]), ownership[i])
    ensures ownership[i] in OwnAll(dom, root, ownership[..j]).claims
  {
    var s := OwnAll(dom, root, ownership[..i]);
    FreshBefore(dom, root, ownership, i);
    SurgeryIsSound(dom, root, ownership[..i]);
    OwnerSurvives(dom, s, ownership[i]);
    assert ownership[..i + 1][..i] == ownership[..i];
    var t := OwnAll(dom, root, ownership[..i + 1]);
    assert t.claims == s.claims + [ownership[i]];
    ClaimsGrow(dom, root, ownership[..j], i + 1);
    assert ownership[..j][..i + 1] == ownership[..i + 1];
    assert t.claims[|s.claims|] == ownership[i];
  }

  lemma {:induction false} TakenIsListed(claims: seq<Claim>, c: Claim)
    requires c in claims
    ensures c.target in TakenBy(claims, c.owner)
  {
    var before := claims[..|claims| - 1];
    if claims[|claims| - 1] != c {
      assert claims == before + [claims[|claims| - 1]];
      TakenIsListed(before, c);
    }
  }

  /** The loop of `apply_aria_owns` over the collected (owner, target) pairs. */
  method ApplyAriaOwns(dom: Dom, tree: Ax, ownership: seq<Claim>) returns (root: Ax, claimed: set<nat>)
    ensures root == OwnAll(dom, tree, ownership).root
    ensures forall x :: x in claimed <==> Claimed(OwnAll(dom, tree, ownership).claims, x)
  {
    root, claimed := tree, {};
    for i := 0 to |ownership|
      invariant root == OwnAll(dom, tree, ownership[..i]).root
      invariant forall x :: x in claimed <==> Claimed(OwnAll(dom, tree, ownership[..i]).claims, x)
    {
      var c := ownership[i];
      ghost var s := OwnAll(dom, tree, ownership[..i]);
      assert ownership[..i + 1][..i] == ownership[..i];
      if c.owner == c.target || c.target in claimed {
        continue;
      }
      if !Contains(root, c.owner) || dom.contains(c.target, c.owner) {
        continue;
      }
      var target := Find(root, c.target);
      if target.Some? && Contains(target.value, c.owner) {
        continue;
      }
      var d := Detach(root, c.target);
      var node := if d.found.Some? then d.found else dom.Build(c.target);
      if node.None? {
        continue;
      }
      if !Contains(d.tree, c.owner) {
        root := d.tree;
        continue;
      }
      root := Attach(d.tree, c.owner, node.value);
      claimed := claimed + {c.target};
      forall x ensures x in claimed <==> Claimed(s.claims + [c], x) {
        ClaimedOneMore(s.claims, c, x);
      }
    }
    assert ownership[..|ownership|] == ownership;
  }

  lemma ClaimedOneMore(claims: seq<Claim>, c: Claim, x: nat)
    ensures Claimed(claims + [c], x) <==> Claimed(claims, x) || x == c.target
  {
    if Claimed(claims, x) {
      var i :| 0 <= i < |claims| && claims[i].target == x;
      assert (claims + [c])[i].target == x;
    }
    assert (claims + [c])[|claims|].target == c.target;
  }

  // ----- which pairs are accepted -----

  /** The target is in the tree with the owner at or below it. */
  ghost predicate Above(t: Ax, target: nat, owner: nat) {
    Find(t, target).Some? && Count(Find(t, target).value, owner) > 0
  }

  /**
   Exactly when a pair is acted on: owner and target differ, nobody has claimed the target,
   the owner is in the tree, the target does not contain the owner in the DOM or in the
   tree, and the target is below the root or can be built. Otherwise nothing changes.
   */
  lemma AcceptedIff(dom: Dom, s: Surgery, c: Claim)
    requires Distinct(s.root) && FreshAt(dom, s, c)
    ensures var accepted := c.owner != c.target && (forall d :: d in s.claims ==> d.target != c.target) && Count(s.root, c.owner) > 0
              && !dom.contains(c.target, c.owner) && !Above(s.root, c.target, c.owner)
              && (CountOf(s.root.children, c.target) > 0 || dom.children(c.target).Some?);
      if accepted then Own(dom, s, c).claims == s.claims + [c] else Own(dom, s, c) == s
  {
    Present(s.root, c.owner);
    Present(s.root, c.target);
    DetachSplits(s.root, c.target, c.target);
    if Find(s.root, c.target).Some? {
      Present(Find(s.root, c.target).value, c.owner);
    }
    assert Claimed(s.claims, c.target) <==> exists d :: d in s.claims && d.target == c.target by {
      if exists d :: d in s.claims && d.target == c.target {
        var d :| d in s.claims && d.target == c.target;
        var i :| 0 <= i < |s.claims| && s.claims[i] == d;
      }
    }
    if Able(dom, s, c) {
      OwnerSurvives(dom, s, c);
    }
  }

  /** A DOM in which `r` contains everything and nothing else contains anything. */
  function Nested(r: nat): Dom { Dom((a: nat, b: nat) => a == r, (id: nat) => None) }

  /** An owner may claim a node that it contains in the DOM, but not one that contains it. */
  lemma DescendantsMayBeOwned(r: nat, q: nat, x: nat)
    requires r != q && r != x && q != x
    ensures var tree := Ax(r, [Ax(q, [Leaf(x)])]);
      && OwnAll(Nested(r), tree, [Claim(r, x)]).claims == [Claim(r, x)]
      && OwnAll(Nested(r), tree, [Claim(x, r)]) == Surgery(tree, [], [])
  {
    var tree := Ax(r, [Ax(q, [Leaf(x)])]);
    var s := Surgery(tree, [], []);
    OwnOne(Nested(r), tree, Claim(r, x));
    OwnOne(Nested(r), tree, Claim(x, r));
    forall z: nat ensures Count(tree, z) == if z in {r, q, x} then 1 else 0 {
      Single(Ax(q, [Leaf(x)]), z);
      Single(Leaf(x), z);
      LeafHas(x, z);
    }
    Present(tree, x);
    PresentIsFresh(Nested(r), s, Claim(r, x));
    PresentIsFresh(Nested(r), s, Claim(x, r));
    assert Find(tree, x) == Some(Leaf(x)) by {
      Single(Ax(q, [Leaf(x)]), x);
      Single(Leaf(x), x);
    }
    LeafHas(x, r);
    assert CountOf(tree.children, x) > 0;
    AcceptedIff(Nested(r), s, Claim(r, x));
    AcceptedIff(Nested(r), s, Claim(x, r));
    assert [] + [Claim(r, x)] == [Claim(r, x)];
  }

  lemma OwnOne(dom: Dom, root: Ax, c: Claim)
    ensures OwnAll(dom, root, [c]) == Own(dom, Surgery(root, [], []), c)
  {
    var one := [c];
    assert one[..0] == [];
  }

  // ----- targets that are in the tree -----

  /** A target counted in the tree is never built. */
  lemma PresentIsFresh(dom: Dom, s: Surgery, c: Claim)
    requires Count(s.root, c.target) > 0
    ensures FreshAt(dom, s, c) && (Able(dom, s, c) ==> NewlyBuilt(dom, s, c) == [])
  {
    DetachSplits(s.root, c.target, c.target);
    Present(s.root, c.target);
  }

  /** With every target in the tree nothing is built, so the surgery is sound whatever the builder would return. */
  lemma {:induction false} PresentTargetsSuffice(dom: Dom, root: Ax, ownership: seq<Claim>)
    requires Distinct(root) && forall i :: 0 <= i < |ownership| ==> Count(root, ownership[i].target) > 0
    ensures BuildsFresh(dom, root, ownership) && OwnAll(dom, root, ownership).built == []
    ensures Sound(root, OwnAll(dom, root, ownership))
  {
    if ownership != [] {
      var n := |ownership| - 1;
      var before := ownership[..n];
      PresentTargetsSuffice(dom, root, before);
      var s, c := OwnAll(dom, root, before), ownership[n];
      assert Count(s.root, c.target) == Count(root, c.target) + CountOf(s.built, c.target);
      PresentIsFresh(dom, s, c);
      FreshSnoc(dom, root, ownership);
    }
    SurgeryIsSound(dom, root, ownership);
  }

  lemma FreshSnoc(dom: Dom, root: Ax, ownership: seq<Claim>)
    requires ownership != [] && BuildsFresh(dom, root, ownership[..|ownership| - 1])
    requires FreshAt(dom, OwnAll(dom, root, ownership[..|ownership| - 1]), ownership[|ownership| - 1])
    ensures BuildsFresh(dom, root, ownership)
  {
    var before := ownership[..|ownership| - 1];
    forall i | 0 <= i < |ownership| ensures FreshAt(dom, OwnAll(dom, root, ownership[..i]), ownership[i]) {
      if i < |before| {
        assert before[..i] == ownership[..i] && before[i] == ownership[i];
      }
    }
  }

  // ----- a builder that is not fresh -----

  /** The turn takes its target out and then finds no owner to attach it to: the subtree is lost. */
  ghost predicate Drops(dom: Dom, s: Surgery, c: Claim) {
    Able(dom, s, c) && !Contains(Detach(s.root, c.target).tree, c.owner)
  }

  ghost predicate NeverDrops(dom: Dom, root: Ax, ownership: seq<Claim>) {
    forall i :: 0 <= i < |ownership| ==> !Drops(dom, OwnAll(dom, root, ownership[..i]), ownership[i])
  }

  /** When a missing target is built, the identities stay distinct if and only if the built subtree is apart from the tree. */
  lemma DistinctIffFresh(dom: Dom, s: Surgery, c: Claim)
    requires Distinct(s.root) && Able(dom, s, c) && Detach(s.root, c.target).found.None?
    ensures Distinct(Own(dom, s, c).root) <==> Apart(s.root, dom.Build(c.target).value)
  {
    var b := dom.Build(c.target).value;
    DetachSplits(s.root, c.target, c.target);
    forall x: nat ensures Count(Own(dom, s, c).root, x) == Count(s.root, x) + Count(b, x) {
      AttachAdds(s.root, c.owner, b, x);
    }
    var t := Own(dom, s, c).root;
    if Distinct(t) {
      forall x: nat ensures Count(s.root, x) + Count(b, x) <= 1 { assert Count(t, x) <= 1; }
    }
    if Apart(s.root, b) {
      forall x: nat ensures Count(t, x) <= 1 { assert Count(s.root, x) + Count(b, x) <= 1; }
    }
  }

  /** A turn that drops nothing loses no identity, whatever the tree. */
  lemma KeepsCount(dom: Dom, s: Surgery, c: Claim, y: nat)
    requires !Drops(dom, s, c)
    ensures Count(s.root, y) <= Count(Own(dom, s, c).root, y)
  {
    if Able(dom, s, c) {
      DetachSplits(s.root, c.target, y);
      AttachAdds(Detach(s.root, c.target).tree, c.owner, Moved(dom, s, c), y);
    }
  }

  lemma KeepsDuplicates(dom: Dom, s: Surgery, c: Claim)
    requires !Drops(dom, s, c) && Distinct(Own(dom, s, c).root)
    ensures Distinct(s.root)
  {
    forall y: nat ensures Count(s.root, y) <= 1 {
      KeepsCount(dom, s, c, y);
      assert Count(Own(dom, s, c).root, y) <= 1;
    }
  }

  /**
   The demand on the builder is exact for the whole loop: no identity ends up in the
   tree twice and no subtree is dropped on the way if and only if every subtree built
   along the run is apart from the tree at its turn.
   */
  lemma {:induction false} SoundIffBuildsFresh(dom: Dom, root: Ax, ownership: seq<Claim>)
    requires Distinct(root)
    ensures Distinct(OwnAll(dom, root, ownership).root) && NeverDrops(dom, root, ownership) <==> BuildsFresh(dom, root, ownership)
  {
    if ownership != [] {
      var n := |ownership| - 1;
      var before, c := ownership[..n], ownership[n];
      var s := OwnAll(dom, root, before);
      SoundIffBuildsFresh(dom, root, before);
      if Distinct(OwnAll(dom, root, ownership).root) && NeverDrops(dom, root, ownership) {
        assert NeverDrops(dom, root, before) by {
          forall i | 0 <= i < n ensures !Drops(dom, OwnAll(dom, root, before[..i]), before[i]) {
            assert before[..i] == ownership[..i] && before[i] == ownership[i];
          }
        }
        KeepsDuplicates(dom, s, c);
        if Able(dom, s, c) && Detach(s.root, c.target).found.None? {
          DistinctIffFresh(dom, s, c);
        }
        FreshSnoc(dom, root, ownership);
      }
      if BuildsFresh(dom, root, ownership) {
        FreshBefore(dom, root, ownership, n);
        SurgeryIsSound(dom, root, ownership);
        NeverDropsWhenFresh(dom, root, ownership);
      }
    }
  }

  /** Fresh builds never let the owner lookup after the detach fail. */
  lemma NeverDropsWhenFresh(dom: Dom, root: Ax, ownership: seq<Claim>)
    requires Distinct(root) && BuildsFresh(dom, root, ownership)
    ensures NeverDrops(dom, root, ownership)
  {
    forall i | 0 <= i < |ownership| ensures !Drops(dom, OwnAll(dom, root, ownership[..i]), ownership[i]) {
      var s, c := OwnAll(dom, root, ownership[..i]), ownership[i];
      FreshBefore(dom, root, ownership, i);
      SurgeryIsSound(dom, root, ownership[..i]);
      if Able(dom, s, c) { OwnerSurvives(dom, s, c); }
    }
  }

  // ----- two runs with stale builds -----

  lemma OwnTwo(dom: Dom, root: Ax, c: Claim, d: Claim)
    ensures OwnAll(dom, root, [c, d]) == Own(dom, Own(dom, Surgery(root, [], []), c), d)
  {
    var both, first := [c, d], [c];
    assert both[..1] == first && first[..0] == [];
    assert OwnAll(dom, root, first) == Own(dom, OwnAll(dom, root, first[..0]), c);
    assert OwnAll(dom, root, both) == Own(dom, OwnAll(dom, root, both[..1]), d);
  }

  /** A list of one tree, looked at by each operation. */
  lemma Single(t: Ax, x: nat)
    ensures FindAny([t], x) == Find(t, x) && CountOf([t], x) == Count(t, x)
    ensures t.id != x ==> DetachAny([t], x) == DetachedAny(Detach(t, x).found, [Detach(t, x).tree]) && Position([t], x) == 1
  {
    var ts := [t];
    assert ts[1..] == [];
    if Detach(t, x).found.Some? {
      assert [Detach(t, x).tree] + [] == [Detach(t, x).tree];
    }
  }

  function Leaf(x: nat): Ax { Ax(x, []) }

  lemma LeafHas(x: nat, y: nat)
    ensures Find(Leaf(x), y) == (if x == y then Some(Leaf(x)) else None)
    ensures Count(Leaf(x), y) == if x == y then 1 else 0
  {
  }

  /** A builder for two missing targets: the subtree it builds for `y` repeats `x`. */
  function Stale(x: nat, y: nat): Dom {
    Dom((a: nat, b: nat) => false, (id: nat) => if id == x then Some([]) else if id == y then Some([Leaf(x)]) else None)
  }

  /** A run of the loop, from a tree of one node, that puts the identity `x` into the tree twice. */
  lemma StaleBuildDuplicates(r: nat, x: nat, y: nat)
    requires r != x && r != y && x != y
    ensures var end := OwnAll(Stale(x, y), Leaf(r), [Claim(r, x), Claim(r, y)]).root;
      Distinct(Leaf(r)) && end == Ax(r, [Leaf(x), Ax(y, [Leaf(x)])]) && Count(end, x) == 2
  {
    var c, d, dom := Claim(r, x), Claim(r, y), Stale(x, y);
    OwnTwo(dom, Leaf(r), c, d);
    var s := Surgery(Leaf(r), [], []);
    forall z: nat ensures Count(Leaf(r), z) <= 1 { LeafHas(r, z); }
    LeafHas(r, x);
    assert Able(dom, s, c);
    var t := Own(dom, s, c);
    assert dom.Build(x) == Some(Leaf(x)) && Detach(Leaf(r), x) == Detached(None, Leaf(r));
    assert [] + [Leaf(x)] == [Leaf(x)];
    assert Attach(Leaf(r), r, Leaf(x)) == Ax(r, Leaf(r).children + [Leaf(x)]) == Ax(r, [Leaf(x)]);
    assert t.root == Ax(r, [Leaf(x)]) && t.claims == [] + [c];
    Single(Leaf(x), y);
    LeafHas(x, y);
    assert Able(dom, t, d);
    var last := Ax(y, [Leaf(x)]);
    assert [Leaf(x)] + [last] == [Leaf(x), last];
    assert Own(dom, t, d).root == Ax(r, [Leaf(x), last]);
    Cons(Leaf(x), [last], x);
    Single(last, x);
    Single(Leaf(x), x);
    LeafHas(x, x);
  }

  /** The subtree built for `y` repeats `x`. */
  function Lossy(x: nat, y: nat): Dom {
    Dom((a: nat, b: nat) => false, (id: nat) => if id == y then Some([Leaf(x)]) else None)
  }

  /** The tree in which `x` has the owner `o` below it, and `q` comes before `x`; with and without the built copy of `x`. */
  function Before(r: nat, q: nat, x: nat, o: nat): Ax { Ax(r, [Leaf(q), Ax(x, [Leaf(o)])]) }

  function Beside(q: nat, x: nat, y: nat): Ax { Ax(q, [Ax(y, [Leaf(x)])]) }

  ghost predicate AllDiffer(r: nat, q: nat, x: nat, y: nat, o: nat) {
    r != q && r != x && r != y && r != o && q != x && q != y && q != o && x != y && x != o && y != o
  }

  /**
   Distinct identities at the end do not mean that all went well: a stale build may make
   the detach take another node than the one the guard looked at. Here the guard sees the
   copy of `x` that has no owner in it, the detach takes the `x` with the owner `o` below
   it, and `o` is gone from the tree.
   */
  lemma StaleBuildLoses(r: nat, q: nat, x: nat, y: nat, o: nat)
    requires AllDiffer(r, q, x, y, o)
    ensures var end := OwnAll(Lossy(x, y), Before(r, q, x, o), [Claim(q, y), Claim(o, x)]).root;
      end == Ax(r, [Beside(q, x, y)]) && Distinct(end) && Count(Before(r, q, x, o), o) == 1 && Count(end, o) == 0
  {
    var c, d, dom, root := Claim(q, y), Claim(o, x), Lossy(x, y), Before(r, q, x, o);
    OwnTwo(dom, root, c, d);
    LossyFirst(r, q, x, y, o);
    LossySecond(r, q, x, y, o, Own(dom, Surgery(root, [], []), c));
    var end := Ax(r, [Beside(q, x, y)]);
    forall z: nat ensures Count(end, z) == if z in {r, q, y, x} then 1 else 0 {
      Single(Beside(q, x, y), z);
      Single(Ax(y, [Leaf(x)]), z);
      Single(Leaf(x), z);
      LeafHas(x, z);
    }
    Cons(Leaf(q), [Ax(x, [Leaf(o)])], o);
    Single(Ax(x, [Leaf(o)]), o);
    Single(Leaf(o), o);
    LeafHas(q, o);
    LeafHas(o, o);
    assert [Leaf(q)] + [Ax(x, [Leaf(o)])] == root.children;
  }

  lemma LossyFirst(r: nat, q: nat, x: nat, y: nat, o: nat)
    requires AllDiffer(r, q, x, y, o)
    ensures var t := Own(Lossy(x, y), Surgery(Before(r, q, x, o), [], []), Claim(q, y));
      t.root == Ax(r, [Beside(q, x, y), Ax(x, [Leaf(o)])]) && t.claims == [Claim(q, y)]
  {
    var s, c, dom := Surgery(Before(r, q, x, o), [], []), Claim(q, y), Lossy(x, y);
    var five := Ax(x, [Leaf(o)]);
    var kids := [Leaf(q), five];
    assert kids == [Leaf(q)] + [five] && kids[1..] == [five];
    Cons(Leaf(q), [five], y);
    Single(five, y);
    Single(Leaf(o), y);
    LeafHas(o, y);
    LeafHas(q, y);
    LeafHas(q, q);
    assert Count(s.root, y) == 0;
    Present(s.root, y);
    DetachSplits(s.root, y, y);
    assert FindAny(kids, q).Some?;
    assert Able(dom, s, c);
    var built := Ax(y, [Leaf(x)]);
    assert [] + [built] == [built] && [] + [c] == [c];
    assert AttachAny(kids, q, built) == [Beside(q, x, y)] + [five];
  }

  lemma LossySecond(r: nat, q: nat, x: nat, y: nat, o: nat, s: Surgery)
    requires AllDiffer(r, q, x, y, o)
    requires s.root == Ax(r, [Beside(q, x, y), Ax(x, [Leaf(o)])]) && s.claims == [Claim(q, y)]
    ensures Own(Lossy(x, y), s, Claim(o, x)).root == Ax(r, [Beside(q, x, y)])
  {
    var d, dom := Claim(o, x), Lossy(x, y);
    var one, five := Beside(q, x, y), Ax(x, [Leaf(o)]);
    var kids := [one, five];
    assert kids[1..] == [five];
    LossyLookups(q, x, y, o);
    Single(five, o);
    Single(Leaf(o), o);
    LeafHas(o, o);
    assert Contains(s.root, o);
    assert Find(s.root, x) == Some(Leaf(x));
    LeafHas(x, o);
    assert Position([five], x) == 0 && Position(kids, x) == 1;
    assert kids[..1] + kids[2..] == [one];
    assert Detach(s.root, x) == Detached(Some(five), Ax(r, [one]));
    assert Able(dom, s, d);
    Single(one, o);
  }

  lemma LossyLookups(q: nat, x: nat, y: nat, o: nat)
    requires q != x && q != o && y != x && y != o && x != o
    ensures Find(Beside(q, x, y), x) == Some(Leaf(x)) && Find(Beside(q, x, y), o).None?
  {
    Single(Ax(y, [Leaf(x)]), x);
    Single(Leaf(x), x);
    Single(Ax(y, [Leaf(x)]), o);
    Single(Leaf(x), o);
    LeafHas(x, x);
    LeafHas(x, o);
  }
}
