/**
 Hidden nodes of the accessibility tree, computed in two ways by
 src/accessibility.rs: top-down while the tree is built, and bottom-up along the
 flat-tree parents of a single inspected node.
 */
module Hiddenness {
  import opened Common

  datatype Render = Rendered | Unrendered | Invisible

  datatype Cause = AriaElement | AriaSubtree | InertElement | InertSubtree | NotRendered | NotVisible {
    function DescendantCause(): Cause {
      match this
      case AriaElement | AriaSubtree => AriaSubtree
      case InertElement | InertSubtree => InertSubtree
      case NotRendered | NotVisible => this
    }
    predicate PrunesDescendants() { this != NotVisible }
  }

  /**
   What hiddenness depends on. `undisplayed` is the `hidden` attribute, an input of
   type hidden, or one of the tags that never render; `owner` is a node with usable
   `aria-owns` targets; `slot` is a slot that the layout replaces by what it contributes;
   `Other` is a comment, processing instruction or doctype.
   */
  datatype Kind =
    | Document
    | Element(ariaHidden: bool, inert: bool, undisplayed: bool, owner: bool, slot: bool, render: Render)
    | Text(blank: bool)
    | Other

  /**
   A node of the flat tree. `children` is what it contributes to the layout, slots still
   among them: its own children, a host's shadow tree, a slot's assigned nodes or else its
   fallback. `strays` have it for flat-tree parent but are not contributed: a host's
   unassigned light children, and the fallback of a slot that has assigned nodes.
   */
  datatype Node = Node(id: nat, kind: Kind, children: seq<Node>, strays: seq<Node>)

  predicate IsSlot(k: Kind) { k.Element? && k.slot }

  /** The children with every slot replaced by its own, as `layout_child_nodes` has them. */
  function LayoutChildren(ns: seq<Node>): seq<Node> {
    if ns == [] then []
    else (if IsSlot(ns[0].kind) then LayoutChildren(ns[0].children) else [ns[0]]) + LayoutChildren(ns[1..])
  }

  // ----- top-down: the builder -----

  function OwnCause(k: Kind): Option<Cause>
    requires k.Element?
  {
    if k.ariaHidden then Some(AriaElement)
    else if k.inert then Some(InertElement)
    else if k.undisplayed then Some(NotRendered)
    else match k.render
      case Rendered => None
      case Unrendered => Some(NotRendered)
      case Invisible => Some(NotVisible)
  }

  function HiddenCause(k: Kind, ancestor: Option<Cause>): Option<Cause>
    requires k.Element?
  {
    if ancestor.Some? then ancestor else OwnCause(k)
  }

  datatype Passed = Pruned | Reached(cause: Option<Cause>)

  /** What a node hands to a child: nothing, or a visit with a cause. */
  function Hand(parent: Kind, ancestor: Option<Cause>, child: Kind, retain: bool): Passed {
    match parent
    case Document => Reached(None)
    case Element(_, _, _, _, _, _) =>
      var hidden := HiddenCause(parent, ancestor);
      if hidden.None? || !hidden.value.PrunesDescendants() || retain then
        var descendant := if hidden.Some? && hidden.value.PrunesDescendants() then Some(hidden.value.DescendantCause()) else None;
        Reached(if hidden == Some(NotVisible) && !child.Element? then Some(NotVisible) else descendant)
      else Pruned
    case _ => Pruned
  }

  datatype Ax = Ax(id: nat, hidden: Option<Cause>, children: seq<Ax>)

  /** The tree built for a node, if it gets one. */
  function Build(n: Node, ancestor: Option<Cause>, retain: bool): Option<Ax>
    decreases n, 1
  {
    match n.kind
    case Document => Some(Ax(n.id, None, BuildChildren(n.kind, ancestor, n.children, retain)))
    case Text(blank) =>
      if (ancestor.Some? && !retain) || blank then None else Some(Ax(n.id, ancestor, []))
    case Other => None
    case Element(_, _, _, owner, _, _) =>
      var hidden := HiddenCause(n.kind, ancestor);
      if hidden == Some(NotRendered) && !retain && !owner then None
      else Some(Ax(n.id, hidden, BuildChildren(n.kind, ancestor, n.children, retain)))
  }

  /** What is built for the layout children of a node whose children are `ns`. */
  function BuildChildren(parent: Kind, ancestor: Option<Cause>, ns: seq<Node>, retain: bool): seq<Ax>
    decreases ns, 0
  {
    if ns == [] then []
    else
      var rest := BuildChildren(parent, ancestor, ns[1..], retain);
      if IsSlot(ns[0].kind) then BuildChildren(parent, ancestor, ns[0].children, retain) + rest
      else
        match Hand(parent, ancestor, ns[0].kind, retain)
        case Pruned => rest
        case Reached(cause) =>
          match Build(ns[0], cause, retain)
          case None => rest
          case Some(ax) => [ax] + rest
  }

  /** The loop of the builder over a list of layout children. */
  function BuildEach(parent: Kind, ancestor: Option<Cause>, ns: seq<Node>, retain: bool): seq<Ax> {
    if ns == [] then []
    else
      var rest := BuildEach(parent, ancestor, ns[1..], retain);
      match Hand(parent, ancestor, ns[0].kind, retain)
      case Pruned => rest
      case Reached(cause) =>
        match Build(ns[0], cause, retain)
        case None => rest
        case Some(ax) => [ax] + rest
  }

  lemma {:induction false} BuildEachConcat(parent: Kind, ancestor: Option<Cause>, a: seq<Node>, b: seq<Node>, retain: bool)
    ensures BuildEach(parent, ancestor, a + b, retain) ==
            BuildEach(parent, ancestor, a, retain) + BuildEach(parent, ancestor, b, retain)
  {
    if a == [] {
      assert a + b == b;
    } else {
      assert (a + b)[1..] == a[1..] + b;
      BuildEachConcat(parent, ancestor, a[1..], b, retain);
    }
  }

  /** Building through the slots is building the flattened list. */
  lemma {:induction false} BuildsLayoutChildren(parent: Kind, ancestor: Option<Cause>, ns: seq<Node>, retain: bool)
    ensures BuildChildren(parent, ancestor, ns, retain) == BuildEach(parent, ancestor, LayoutChildren(ns), retain)
    decreases ns
  {
    if ns != [] {
      var rest := LayoutChildren(ns[1..]);
      BuildsLayoutChildren(parent, ancestor, ns[1..], retain);
      if IsSlot(ns[0].kind) {
        BuildsLayoutChildren(parent, ancestor, ns[0].children, retain);
        BuildEachConcat(parent, ancestor, LayoutChildren(ns[0].children), rest, retain);
      } else {
        assert ([ns[0]] + rest)[1..] == rest;
      }
    }
  }

  // ----- bottom-up: the inspected node -----

  /** The document, then elements, then the inspected node. */
  ghost predicate IsLine(chain: seq<Node>) {
    && |chain| >= 2 && chain[0].kind.Document?
    && (forall i :: 0 < i < |chain| - 1 ==> chain[i].kind.Element?)
    && !chain[|chain| - 1].kind.Document?
  }

  /** A path of flat-tree parents from the document down to the inspected node, slots and strays included. */
  ghost predicate IsPath(chain: seq<Node>) {
    IsLine(chain) && Linked(chain)
  }

  ghost predicate Linked(chain: seq<Node>) {
    forall i :: 0 <= i < |chain| - 1 ==> chain[i + 1] in chain[i].children || chain[i + 1] in chain[i].strays
  }

  /** "Not rendered" is inherited by every element below. */
  ghost predicate RenderInherits(chain: seq<Node>) {
    forall i, j :: 0 <= i < j < |chain| && chain[i].kind.Element? && chain[j].kind.Element? ==>
      (chain[i].kind.render == Unrendered ==> chain[j].kind.render == Unrendered)
  }

  predicate Marked(k: Kind)
    requires k.Element?
  {
    k.ariaHidden || k.inert || k.undisplayed
  }

  /** The cause found at or above `chain[i]`, once the nearest element's render state is or is not resolved. */
  function CauseFrom(chain: seq<Node>, i: int, text: bool, resolved: bool): Option<Cause>
    requires i < |chain|
    decreases i + 1
  {
    if i < 0 then None
    else
      var k := chain[i].kind;
      if !k.Element? then CauseFrom(chain, i - 1, text, resolved)
      else if k.ariaHidden then Some(AriaSubtree)
      else if k.inert then Some(InertSubtree)
      else if k.undisplayed then Some(NotRendered)
      else if !resolved && k.render == Unrendered then Some(NotRendered)
      else if !resolved && k.render == Invisible && text then Some(NotVisible)
      else CauseFrom(chain, i - 1, text, true)
  }

  function HiddenAncestor(chain: seq<Node>): Option<Cause>
    requires |chain| > 0
  {
    CauseFrom(chain, |chain| - 2, chain[|chain| - 1].kind.Text?, false)
  }

  /** The loop of `hidden_ancestor_cause`. */
  method HiddenAncestorCause(chain: seq<Node>) returns (cause: Option<Cause>)
    requires |chain| > 0
    ensures cause == HiddenAncestor(chain)
  {
    var current := |chain| - 2;
    var checkInherited := chain[|chain| - 1].kind.Text?;
    var resolved := false;
    while current >= 0
      invariant -1 <= current <= |chain| - 2
      invariant CauseFrom(chain, current, checkInherited, resolved) == HiddenAncestor(chain)
    {
      var k := chain[current].kind;
      if k.Element? {
        if k.ariaHidden {
          return Some(AriaSubtree);
        }
        if k.inert {
          return Some(InertSubtree);
        }
        if k.undisplayed {
          return Some(NotRendered);
        }
        if !resolved {
          match k.render {
            case Unrendered => return Some(NotRendered);
            case Invisible => if checkInherited { return Some(NotVisible); }
            case Rendered =>
          }
          resolved := true;
        }
      }
      current := current - 1;
    }
    cause := None;
  }

  // ----- the two agree -----

  /** How the builder reaches the end of the chain when its first node gets `cause`. */
  ghost function Arrives(chain: seq<Node>, cause: Option<Cause>, retain: bool): Passed {
    if |chain| <= 1 then Reached(cause)
    else
      match Hand(chain[0].kind, cause, chain[1].kind, retain)
      case Pruned => Pruned
      case Reached(next) => Arrives(chain[1..], next, retain)
  }

  /** An element that hides everything below it. */
  ghost predicate Hides(k: Kind) { k.Element? && (Marked(k) || k.render == Unrendered) }

  /** In an inspected subtree, a pruning cause is handed all the way down. */
  lemma {:induction false} HiddenStays(chain: seq<Node>, cause: Cause)
    requires |chain| >= 1 && cause.PrunesDescendants() && cause.DescendantCause() == cause
    requires forall i :: 0 <= i < |chain| - 1 ==> chain[i].kind.Element?
    ensures Arrives(chain, Some(cause), true) == Reached(Some(cause))
  {
    if |chain| > 1 {
      HiddenStays(chain[1..], cause);
    }
  }

  /** Some element between the document and the inspected node hides it. */
  ghost predicate HiddenAbove(chain: seq<Node>) {
    exists j :: 1 <= j < |chain| - 1 && Hides(chain[j].kind)
  }

  ghost predicate ParentInvisible(chain: seq<Node>) {
    |chain| > 2 && chain[|chain| - 2].kind.Element? && chain[|chain| - 2].kind.render == Invisible
  }

  // ----- slots and strays -----

  /** The path the builder takes: the slots on the way are not there for it. */
  ghost function Plain(chain: seq<Node>): seq<Node> {
    if chain == [] then [] else (if IsSlot(chain[0].kind) then [] else [chain[0]]) + Plain(chain[1..])
  }

  ghost predicate HasStray(chain: seq<Node>) {
    exists i :: 0 <= i < |chain| - 1 && chain[i + 1] !in chain[i].children
  }

  /** The layout has no place for the node: it is a slot, or it or one of its ancestors is a stray. */
  ghost predicate Unvisited(chain: seq<Node>)
    requires chain != []
  {
    IsSlot(chain[|chain| - 1].kind) || HasStray(chain)
  }

  /** How the builder reaches the inspected node, if it does. */
  ghost function Visit(chain: seq<Node>, retain: bool): Passed
    requires IsPath(chain)
  {
    if Unvisited(chain) then Pruned
    else Arrives(Plain(chain), None, retain)
  }

  lemma {:induction false} PlainKeeps(chain: seq<Node>)
    requires chain != [] && !IsSlot(chain[|chain| - 1].kind)
    ensures Plain(chain) != [] && Plain(chain)[|Plain(chain)| - 1] == chain[|chain| - 1]
    ensures !IsSlot(chain[0].kind) ==> Plain(chain)[0] == chain[0] && Plain(chain) == [chain[0]] + Plain(chain[1..])
  {
    if |chain| > 1 {
      PlainKeeps(chain[1..]);
    } else {
      assert Plain(chain[1..]) == [];
    }
  }

  lemma {:induction false} PlainElements(chain: seq<Node>)
    requires chain != [] && !IsSlot(chain[|chain| - 1].kind) && forall i :: 0 <= i < |chain| - 1 ==> chain[i].kind.Element?
    ensures var line := Plain(chain); forall i :: 0 <= i < |line| - 1 ==> line[i].kind.Element?
  {
    PlainKeeps(chain);
    if |chain| > 1 {
      var rest := Plain(chain[1..]);
      PlainElements(chain[1..]);
      PlainKeeps(chain[1..]);
      if !IsSlot(chain[0].kind) {
        forall i | 0 <= i < |rest| ensures ([chain[0]] + rest)[i + 1] == rest[i] {}
      }
    }
  }

  lemma PlainIsLine(chain: seq<Node>)
    requires IsLine(chain) && !IsSlot(chain[|chain| - 1].kind)
    ensures IsLine(Plain(chain)) && Plain(chain)[|Plain(chain)| - 1] == chain[|chain| - 1]
  {
    var rest := Plain(chain[1..]);
    PlainKeeps(chain);
    PlainKeeps(chain[1..]);
    PlainElements(chain[1..]);
    forall i | 0 <= i < |rest| ensures ([chain[0]] + rest)[i + 1] == rest[i] {}
  }

  lemma {:induction false} PlainIsSub(chain: seq<Node>, j: nat) returns (i: nat)
    requires j < |Plain(chain)|
    ensures i < |chain| && chain[i] == Plain(chain)[j] && (|chain| - i >= |Plain(chain)| - j) && i >= j
  {
    if IsSlot(chain[0].kind) {
      i := PlainIsSub(chain[1..], j);
      i := i + 1;
    } else if j == 0 {
      i := 0;
      PlainIsShorter(chain[1..]);
    } else {
      i := PlainIsSub(chain[1..], j - 1);
      i := i + 1;
    }
  }

  lemma {:induction false} PlainIsShorter(chain: seq<Node>)
    ensures |Plain(chain)| <= |chain|
  {
    if chain != [] {
      PlainIsShorter(chain[1..]);
    }
  }

  /** What hides along the layout hides along the flat tree. */
  lemma LayoutHidersHide(chain: seq<Node>)
    ensures HiddenAbove(Plain(chain)) ==> HiddenAbove(chain)
  {
    if HiddenAbove(Plain(chain)) {
      var j :| 1 <= j < |Plain(chain)| - 1 && Hides(Plain(chain)[j].kind);
      var i := PlainIsSub(chain, j);
      assert Hides(chain[i].kind);
    }
  }

  /** A path without slots is the builder's path. */
  lemma {:induction false} PlainOfPlain(chain: seq<Node>)
    requires forall i :: 0 <= i < |chain| ==> !IsSlot(chain[i].kind)
    ensures Plain(chain) == chain
  {
    if chain != [] {
      PlainOfPlain(chain[1..]);
    }
  }

  // ----- whether there is a cause -----

  /** Something hides it along the flat tree: what the walk reports. */
  ghost predicate HiddenInFlat(chain: seq<Node>)
    requires |chain| > 0
  {
    HiddenAbove(chain) || (chain[|chain| - 1].kind.Text? && ParentInvisible(chain))
  }

  /** Something hides it along the layout: what the builder heeds. */
  ghost predicate HiddenInLayout(chain: seq<Node>)
    requires |chain| > 0
  {
    HiddenAbove(Plain(chain)) || (!chain[|chain| - 1].kind.Element? && ParentInvisible(Plain(chain)))
  }

  lemma BothMeanings(chain: seq<Node>, retain: bool)
    requires IsPath(chain) && RenderInherits(chain)
    ensures HiddenAncestor(chain).Some? <==> HiddenInFlat(chain)
    ensures Visit(chain, retain) != Reached(None) <==> Unvisited(chain) || HiddenInLayout(chain)
  {
    BottomUpCause(chain);
    if ParentInvisible(chain) && Marked(chain[|chain| - 2].kind) {
      assert Hides(chain[|chain| - 2].kind);
    }
    if !Unvisited(chain) {
      PlainIsLine(chain);
      TopDownCause(Plain(chain), retain);
    }
  }

  /** Nothing hides the node, but the layout has no place for it. */
  ghost predicate LeftOut(chain: seq<Node>)
    requires |chain| > 0
  {
    Unvisited(chain) && !HiddenInFlat(chain)
  }

  /** Only a slot hides the node, and the builder does not see slots. */
  ghost predicate OnlySlotHides(chain: seq<Node>)
    requires |chain| > 0
  {
    && !Unvisited(chain) && HiddenAbove(chain) && !HiddenAbove(Plain(chain))
    && (chain[|chain| - 1].kind.Element? || !ParentInvisible(Plain(chain)))
  }

  /** The text is in a slot whose visibility differs from that of the slot's layout parent. */
  ghost predicate SlotChangesVisibility(chain: seq<Node>)
    requires |chain| > 0
  {
    && !Unvisited(chain) && !HiddenAbove(chain) && chain[|chain| - 1].kind.Text?
    && ParentInvisible(chain) != ParentInvisible(Plain(chain))
  }

  /** A comment, or the like, whose layout parent is invisible: the builder hands it `NotVisible`, the walk reports that for text alone. */
  ghost predicate InvisibleComment(chain: seq<Node>)
    requires |chain| > 0
  {
    !Unvisited(chain) && !HiddenAbove(chain) && chain[|chain| - 1].kind.Other? && ParentInvisible(Plain(chain))
  }

  ghost predicate Exceptional(chain: seq<Node>)
    requires |chain| > 0
  {
    LeftOut(chain) || OnlySlotHides(chain) || SlotChangesVisibility(chain) || InvisibleComment(chain)
  }

  /**
   The bottom-up walk finds a cause exactly when the builder does not visit the node or
   hands it one, whether or not it retains hidden subtrees, except in four situations,
   and in all of those.
   */
  lemma BottomUpIsTopDown(chain: seq<Node>, retain: bool)
    requires IsPath(chain) && RenderInherits(chain)
    ensures (HiddenAncestor(chain).Some? <==> Visit(chain, retain) != Reached(None)) <==> !Exceptional(chain)
  {
    BothMeanings(chain, retain);
    LayoutHidersHide(chain);
  }

  /** Where no slot or stray is on the way, only the comment is left. */
  lemma AgreeWithoutSlots(chain: seq<Node>, retain: bool)
    requires IsPath(chain) && RenderInherits(chain) && !HasStray(chain)
    requires forall i :: 0 <= i < |chain| ==> !IsSlot(chain[i].kind)
    ensures (HiddenAncestor(chain).Some? <==> Visit(chain, retain) != Reached(None)) <==>
            !(chain[|chain| - 1].kind.Other? && ParentInvisible(chain) && !HiddenAbove(chain))
  {
    PlainOfPlain(chain);
    BottomUpIsTopDown(chain, retain);
  }

  // ----- each exception occurs -----

  function Plainly(render: Render, slot: bool): Kind { Element(false, false, false, false, slot, render) }

  /** The path of one node below another, below the document. */
  function Three(parent: Node, node: Node): seq<Node> { [Node(0, Document, [parent], []), parent, node] }

  function Four(parent: Node, slot: Node, node: Node): seq<Node> { [Node(0, Document, [parent], []), parent, slot, node] }

  lemma ThreePath(parent: Node, node: Node)
    requires parent.kind.Element? && !IsSlot(parent.kind) && !node.kind.Document? && !IsSlot(node.kind)
    requires node in parent.children || node in parent.strays
    ensures var chain := Three(parent, node);
      && IsPath(chain) && Plain(chain) == chain && (HasStray(chain) <==> node !in parent.children)
      && (HiddenAbove(chain) <==> Hides(parent.kind))
  {
    var chain := Three(parent, node);
    PlainOfPlain(chain);
    if node !in parent.children {
      assert chain[2] !in chain[1].children;
    }
    if Hides(parent.kind) {
      assert Hides(chain[1].kind);
    }
  }

  lemma FourPath(parent: Node, inner: Node, node: Node)
    requires parent.kind.Element? && !IsSlot(parent.kind) && inner.kind.Element? && inner in parent.children
    requires !node.kind.Document? && !IsSlot(node.kind) && node in inner.children
    ensures var chain := Four(parent, inner, node);
      && IsPath(chain) && !HasStray(chain) && (HiddenAbove(chain) <==> Hides(parent.kind) || Hides(inner.kind))
      && Plain(chain) == if IsSlot(inner.kind) then Three(parent, node) else chain
  {
    FourHides(parent, inner, node);
    if IsSlot(inner.kind) {
      PlainOfFour(parent, inner, node);
    } else {
      PlainOfPlain(Four(parent, inner, node));
    }
  }

  lemma FourHides(parent: Node, inner: Node, node: Node)
    ensures HiddenAbove(Four(parent, inner, node)) <==> Hides(parent.kind) || Hides(inner.kind)
  {
    var chain := Four(parent, inner, node);
    if Hides(parent.kind) {
      assert Hides(chain[1].kind);
    } else if Hides(inner.kind) {
      assert Hides(chain[2].kind);
    }
  }

  lemma PlainOfFour(parent: Node, slot: Node, node: Node)
    requires !IsSlot(parent.kind) && IsSlot(slot.kind) && !IsSlot(node.kind)
    ensures Plain(Four(parent, slot, node)) == Three(parent, node)
  {
    var chain := Four(parent, slot, node);
    assert chain[1..] == [parent, slot, node] && [parent, slot, node][1..] == [slot, node] && [slot, node][1..] == [node];
    assert [node][1..] == [] && Plain([node]) == [node] + [] && Plain([slot, node]) == [] + [node];
    assert Plain([parent, slot, node]) == [parent] + [node];
    assert [chain[0]] + [parent, node] == Three(parent, node);
  }

  /** A comment in an invisible element. */
  lemma CommentsDisagree(retain: bool) returns (chain: seq<Node>)
    ensures IsPath(chain) && RenderInherits(chain) && InvisibleComment(chain)
    ensures HiddenAncestor(chain) == None && Visit(chain, retain) == Reached(Some(NotVisible))
  {
    var comment := Node(2, Other, [], []);
    var parent := Node(1, Plainly(Invisible, false), [comment], []);
    chain := Three(parent, comment);
    ThreePath(parent, comment);
    VisitCause(chain, retain);
    BottomUpCause(chain);
  }

  /** Text in a slot that is hidden from accessibility. */
  lemma SlotsDisagree(retain: bool) returns (chain: seq<Node>)
    ensures IsPath(chain) && RenderInherits(chain) && OnlySlotHides(chain)
    ensures HiddenAncestor(chain) == Some(AriaSubtree) && Visit(chain, retain) == Reached(None)
  {
    var text := Node(3, Text(false), [], []);
    var slot := Node(2, Element(true, false, false, false, true, Rendered), [text], []);
    var parent := Node(1, Plainly(Rendered, false), [slot], []);
    chain := Four(parent, slot, text);
    FourPath(parent, slot, text);
    NoneHides(parent, text);
    VisitCause(chain, retain);
    BottomUpCause(chain);
  }

  lemma NoneHides(parent: Node, node: Node)
    requires !Hides(parent.kind)
    ensures !HiddenAbove(Three(parent, node))
  {
  }

  /** Text in a visible slot in an invisible element, and the other way round. */
  lemma SlotVisibilityDisagrees(retain: bool, visible: bool) returns (chain: seq<Node>)
    ensures IsPath(chain) && RenderInherits(chain) && SlotChangesVisibility(chain)
    ensures HiddenAncestor(chain) == (if visible then None else Some(NotVisible))
    ensures Visit(chain, retain) == Reached(if visible then Some(NotVisible) else None)
  {
    var text := Node(3, Text(false), [], []);
    var slot := Node(2, Plainly(if visible then Rendered else Invisible, true), [text], []);
    var parent := Node(1, Plainly(if visible then Invisible else Rendered, false), [slot], []);
    chain := Four(parent, slot, text);
    FourPath(parent, slot, text);
    NoneHides(parent, text);
    VisitCause(chain, retain);
    BottomUpCause(chain);
  }

  /** An unassigned light child of a shadow host. */
  lemma StraysDisagree(retain: bool) returns (chain: seq<Node>)
    ensures IsPath(chain) && RenderInherits(chain) && LeftOut(chain)
    ensures HiddenAncestor(chain) == None && Visit(chain, retain) == Pruned
  {
    var text := Node(2, Text(false), [], []);
    var host := Node(1, Plainly(Rendered, false), [], [text]);
    chain := Three(host, text);
    ThreePath(host, text);
    BottomUpCause(chain);
  }

  // ----- which cause each of them names -----

  /** What an element that hides everything below it hands down: its first mark, told as that of a subtree. */
  ghost function Below(k: Kind): Cause
    requires Hides(k)
  {
    if k.ariaHidden then AriaSubtree else if k.inert then InertSubtree else NotRendered
  }

  /** The outermost element that hides the end of the chain. */
  ghost function FirstHider(chain: seq<Node>): (f: nat)
    requires HiddenAbove(chain)
    ensures 1 <= f < |chain| - 1 && Hides(chain[f].kind) && forall j :: 1 <= j < f ==> !Hides(chain[j].kind)
  {
    FirstFrom(chain, 1)
  }

  ghost function FirstFrom(chain: seq<Node>, i: nat): (f: nat)
    requires HiddenAbove(chain) && 1 <= i < |chain| && forall j :: 1 <= j < i ==> !Hides(chain[j].kind)
    ensures 1 <= f < |chain| - 1 && Hides(chain[f].kind) && forall j :: 1 <= j < f ==> !Hides(chain[j].kind)
    decreases |chain| - i
  {
    if i < |chain| - 1 && Hides(chain[i].kind) then i else FirstFrom(chain, i + 1)
  }

  /** The innermost one. */
  ghost function NearestHider(chain: seq<Node>): (n: nat)
    requires HiddenAbove(chain)
    ensures 1 <= n < |chain| - 1 && Hides(chain[n].kind) && forall j :: n < j < |chain| - 1 ==> !Hides(chain[j].kind)
  {
    NearestFrom(chain, |chain| - 2)
  }

  ghost function NearestFrom(chain: seq<Node>, i: nat): (n: nat)
    requires HiddenAbove(chain) && i < |chain| - 1 && forall j :: i < j < |chain| - 1 ==> !Hides(chain[j].kind)
    ensures 1 <= n < |chain| - 1 && Hides(chain[n].kind) && forall j :: n < j < |chain| - 1 ==> !Hides(chain[j].kind)
  {
    if i >= 1 && Hides(chain[i].kind) then i else NearestFrom(chain, i - 1)
  }

  /** The builder stops at the first hider, or in an inspected subtree hands its cause all the way down. */
  lemma {:induction false} FirstHiderDecides(chain: seq<Node>, f: nat, retain: bool)
    requires f < |chain| - 1 && (forall i :: 0 <= i < |chain| - 1 ==> chain[i].kind.Element?)
    requires Hides(chain[f].kind) && forall j :: 0 <= j < f ==> !Hides(chain[j].kind)
    ensures Arrives(chain, None, retain) == if retain then Reached(Some(Below(chain[f].kind))) else Pruned
  {
    if f == 0 {
      if retain {
        HiddenStays(chain[1..], Below(chain[0].kind));
      }
    } else {
      FirstHiderDecides(chain[1..], f - 1, retain);
    }
  }

  lemma {:induction false} NoHiderArrives(chain: seq<Node>, retain: bool)
    requires |chain| >= 1 && (forall i :: 0 <= i < |chain| - 1 ==> chain[i].kind.Element? && !Hides(chain[i].kind))
    ensures Arrives(chain, None, retain) ==
            Reached(if |chain| > 1 && !chain[|chain| - 1].kind.Element? && chain[|chain| - 2].kind.render == Invisible
                    then Some(NotVisible) else None)
  {
    if |chain| > 2 {
      NoHiderArrives(chain[1..], retain);
    }
  }

  /** The cause the builder arrives with: that of the first hider, else `NotVisible` for what is not an element in an invisible parent. */
  lemma TopDownCause(chain: seq<Node>, retain: bool)
    requires IsLine(chain)
    ensures Arrives(chain, None, retain) ==
            if HiddenAbove(chain) then (if retain then Reached(Some(Below(chain[FirstHider(chain)].kind))) else Pruned)
            else Reached(if !chain[|chain| - 1].kind.Element? && ParentInvisible(chain) then Some(NotVisible) else None)
  {
    var below := chain[1..];
    forall i | 0 <= i < |below| ensures below[i] == chain[i + 1] {}
    assert Arrives(chain, None, retain) == Arrives(below, None, retain);
    if HiddenAbove(chain) {
      FirstHiderDecides(below, FirstHider(chain) - 1, retain);
    } else {
      forall i | 0 <= i < |below| - 1 ensures below[i].kind.Element? && !Hides(below[i].kind) {
        assert !Hides(chain[i + 1].kind);
      }
      NoHiderArrives(below, retain);
    }
  }

  /** The same for a path of the flat tree that the layout has a place for. */
  lemma VisitCause(chain: seq<Node>, retain: bool)
    requires IsPath(chain) && !Unvisited(chain)
    ensures var layout := Plain(chain);
      Visit(chain, retain) ==
      if HiddenAbove(layout) then (if retain then Reached(Some(Below(layout[FirstHider(layout)].kind))) else Pruned)
      else Reached(if !chain[|chain| - 1].kind.Element? && ParentInvisible(layout) then Some(NotVisible) else None)
  {
    PlainIsLine(chain);
    TopDownCause(Plain(chain), retain);
  }

  /** Once the render state is resolved, the walk names the nearest marked ancestor. */
  lemma {:induction false} NearestMarkedDecides(chain: seq<Node>, n: nat, i: nat, text: bool)
    requires n <= i < |chain| && (forall j :: n <= j <= i ==> chain[j].kind.Element?)
    requires Marked(chain[n].kind) && (forall j :: n < j <= i ==> !Marked(chain[j].kind))
    ensures CauseFrom(chain, i, text, true) == Some(Below(chain[n].kind))
  {
    if n < i {
      NearestMarkedDecides(chain, n, i - 1, text);
    }
  }

  lemma {:induction false} NoneMarked(chain: seq<Node>, i: nat, text: bool)
    requires i < |chain| && !chain[0].kind.Element?
    requires forall j :: 1 <= j <= i ==> chain[j].kind.Element? && !Marked(chain[j].kind)
    ensures CauseFrom(chain, i, text, true) == None
  {
    if i > 0 {
      NoneMarked(chain, i - 1, text);
    }
  }

  /** If the parent is rendered, so is every ancestor: only a mark can hide there. */
  lemma OnlyMarksHide(chain: seq<Node>, p: nat, j: nat)
    requires IsLine(chain) && RenderInherits(chain) && 1 <= j < p == |chain| - 2 && chain[p].kind.render != Unrendered
    ensures Hides(chain[j].kind) <==> Marked(chain[j].kind)
  {
    assert chain[p].kind.Element? && chain[j].kind.Element?;
  }

  /** The text is in an invisible parent that does not itself hide it. */
  ghost predicate InvisibleText(chain: seq<Node>)
    requires |chain| > 0
  {
    chain[|chain| - 1].kind.Text? && ParentInvisible(chain) && !Marked(chain[|chain| - 2].kind)
  }

  /** The cause the walk reports: `NotVisible` for text in an invisible, unmarked parent, else that of the nearest hider. */
  lemma BottomUpCause(chain: seq<Node>)
    requires IsLine(chain) && RenderInherits(chain)
    ensures HiddenAncestor(chain) ==
            if InvisibleText(chain) then Some(NotVisible)
            else if HiddenAbove(chain) then Some(Below(chain[NearestHider(chain)].kind))
            else None
  {
    var p := |chain| - 2;
    var text := chain[|chain| - 1].kind.Text?;
    if p >= 1 && Hides(chain[p].kind) {
      assert NearestHider(chain) == p;
    } else if p >= 1 && !InvisibleText(chain) {
      FromParent(chain, p, text);
    }
  }

  lemma FromParent(chain: seq<Node>, p: nat, text: bool)
    requires IsLine(chain) && RenderInherits(chain) && 1 <= p == |chain| - 2
    requires !Hides(chain[p].kind) && !(text && chain[p].kind.render == Invisible)
    ensures CauseFrom(chain, p, text, false) ==
            if HiddenAbove(chain) then Some(Below(chain[NearestHider(chain)].kind)) else None
  {
    assert CauseFrom(chain, p, text, false) == CauseFrom(chain, p - 1, text, true);
    forall j | 1 <= j < p ensures chain[j].kind.Element? && (Hides(chain[j].kind) <==> Marked(chain[j].kind)) {
      OnlyMarksHide(chain, p, j);
    }
    if HiddenAbove(chain) {
      NearestMarkedDecides(chain, NearestHider(chain), p - 1, text);
    } else {
      NoneMarked(chain, p - 1, text);
    }
  }

  /**
   When both name the same cause, for a node the builder visits. If something other than a
   slot hides it: exactly if the outermost such element and the innermost hider, slot or
   not, hand down the same cause and the node is not text in an invisible, unmarked
   parent. If only slots do: exactly if it is such text and its layout parent is invisible
   too. Otherwise: an element always, text if its parent and its layout parent are equally
   visible, anything else if its layout parent is visible.
   */
  lemma CausesAgreeIff(chain: seq<Node>)
    requires IsPath(chain) && RenderInherits(chain)
    ensures Visit(chain, true).Reached? <==> !Unvisited(chain)
    ensures !Unvisited(chain) ==>
      (HiddenAncestor(chain) == Visit(chain, true).cause <==>
       var layout, t := Plain(chain), chain[|chain| - 1].kind;
       if HiddenAbove(layout) then
         HiddenAbove(chain) && !InvisibleText(chain) && Below(layout[FirstHider(layout)].kind) == Below(chain[NearestHider(chain)].kind)
       else if HiddenAbove(chain) then InvisibleText(chain) && ParentInvisible(layout)
       else t.Element? || (if t.Text? then ParentInvisible(chain) == ParentInvisible(layout) else !ParentInvisible(layout)))
  {
    if !Unvisited(chain) {
      VisitCause(chain, true);
      BottomUpCause(chain);
      LayoutHidersHide(chain);
      if !HiddenAbove(chain) && ParentInvisible(chain) {
        assert !Hides(chain[|chain| - 2].kind);
      }
    }
  }

  /** The two ways may name different causes: the nearest one, or the outermost one. */
  lemma CausesMayDiffer() returns (chain: seq<Node>)
    ensures IsPath(chain) && RenderInherits(chain)
    ensures HiddenAncestor(chain) == Some(InertSubtree) && Visit(chain, true) == Reached(Some(AriaSubtree))
  {
    var text := Node(3, Text(false), [], []);
    var inner := Node(2, Element(false, true, false, false, false, Rendered), [text], []);
    var outer := Node(1, Element(true, false, false, false, false, Rendered), [inner], []);
    chain := Four(outer, inner, text);
    FourPath(outer, inner, text);
    VisitCause(chain, true);
    BottomUpCause(chain);
  }

  // ----- what ends up in the built tree -----

  /** How often the identity occurs in the document, strays included. */
  ghost function IdCount(n: Node, x: nat): nat { (if n.id == x then 1 else 0) + IdCountOf(n.children, x) + IdCountOf(n.strays, x) }

  ghost function IdCountOf(ns: seq<Node>, x: nat): nat {
    if ns == [] then 0 else IdCount(ns[0], x) + IdCountOf(ns[1..], x)
  }

  /** The causes carried by the nodes of that identity, in order. */
  ghost function Marks(t: Ax, x: nat): seq<Option<Cause>> { (if t.id == x then [t.hidden] else []) + MarksOf(t.children, x) }

  ghost function MarksOf(ts: seq<Ax>, x: nat): seq<Option<Cause>> {
    if ts == [] then [] else Marks(ts[0], x) + MarksOf(ts[1..], x)
  }

  lemma {:induction false} MarksConcat(a: seq<Ax>, b: seq<Ax>, x: nat)
    ensures MarksOf(a + b, x) == MarksOf(a, x) + MarksOf(b, x)
  {
    if a == [] {
      assert a + b == b;
    } else {
      assert (a + b)[1..] == a[1..] + b;
      MarksConcat(a[1..], b, x);
      Associative(Marks(a[0], x), MarksOf(a[1..], x), MarksOf(b, x));
    }
  }

  /** What is carried by that identity in what is built for a node that was handed `p`. */
  ghost function Built(n: Node, p: Passed, retain: bool, x: nat): seq<Option<Cause>> {
    if p.Pruned? || Build(n, p.cause, retain).None? then [] else Marks(Build(n, p.cause, retain).value, x)
  }

  /** The same in what a child adds, itself or through a slot. */
  ghost function Adds(parent: Kind, ancestor: Option<Cause>, n: Node, retain: bool, x: nat): seq<Option<Cause>> {
    if IsSlot(n.kind) then MarksOf(BuildChildren(parent, ancestor, n.children, retain), x)
    else Built(n, Hand(parent, ancestor, n.kind, retain), retain, x)
  }

  lemma BuildChildrenCons(parent: Kind, ancestor: Option<Cause>, ns: seq<Node>, retain: bool, x: nat)
    requires ns != []
    ensures MarksOf(BuildChildren(parent, ancestor, ns, retain), x) ==
            Adds(parent, ancestor, ns[0], retain, x) + MarksOf(BuildChildren(parent, ancestor, ns[1..], retain), x)
  {
    var rest := BuildChildren(parent, ancestor, ns[1..], retain);
    if IsSlot(ns[0].kind) {
      MarksConcat(BuildChildren(parent, ancestor, ns[0].children, retain), rest, x);
    } else {
      var p := Hand(parent, ancestor, ns[0].kind, retain);
      if p.Reached? && Build(ns[0], p.cause, retain).Some? {
        var ax := Build(ns[0], p.cause, retain).value;
        assert ([ax] + rest)[1..] == rest;
      } else {
        assert [] + MarksOf(rest, x) == MarksOf(rest, x);
      }
    }
  }

  /** Nothing is built that the document does not have. */
  lemma {:induction false} BuiltIsCounted(n: Node, p: Passed, retain: bool, x: nat)
    ensures |Built(n, p, retain, x)| <= IdCount(n, x)
    decreases n, 1
  {
    if p.Reached? {
      ChildrenAreCounted(n.kind, p.cause, n.children, retain, x);
      assert MarksOf([], x) == [];
    }
  }

  lemma {:induction false} ChildrenAreCounted(parent: Kind, ancestor: Option<Cause>, ns: seq<Node>, retain: bool, x: nat)
    ensures |MarksOf(BuildChildren(parent, ancestor, ns, retain), x)| <= IdCountOf(ns, x)
    decreases ns, 0
  {
    if ns != [] {
      BuildChildrenCons(parent, ancestor, ns, retain, x);
      if IsSlot(ns[0].kind) {
        ChildrenAreCounted(parent, ancestor, ns[0].children, retain, x);
      } else {
        BuiltIsCounted(ns[0], Hand(parent, ancestor, ns[0].kind, retain), retain, x);
      }
      ChildrenAreCounted(parent, ancestor, ns[1..], retain, x);
    }
  }

  lemma AddsIsCounted(parent: Kind, ancestor: Option<Cause>, n: Node, retain: bool, x: nat)
    ensures |Adds(parent, ancestor, n, retain, x)| <= IdCount(n, x)
  {
    if IsSlot(n.kind) {
      ChildrenAreCounted(parent, ancestor, n.children, retain, x);
    } else {
      BuiltIsCounted(n, Hand(parent, ancestor, n.kind, retain), retain, x);
    }
  }

  /** With distinct identities only one child can contribute a given node. */
  lemma {:induction false} OneChildContributes(parent: Kind, ancestor: Option<Cause>, ns: seq<Node>, m: nat, retain: bool, x: nat)
    requires m < |ns| && IdCountOf(ns, x) <= 1 && IdCount(ns[m], x) >= 1
    ensures MarksOf(BuildChildren(parent, ancestor, ns, retain), x) == Adds(parent, ancestor, ns[m], retain, x)
  {
    var head, rest := Adds(parent, ancestor, ns[0], retain, x), MarksOf(BuildChildren(parent, ancestor, ns[1..], retain), x);
    BuildChildrenCons(parent, ancestor, ns, retain, x);
    if m == 0 {
      ChildrenAreCounted(parent, ancestor, ns[1..], retain, x);
      assert rest == [] && head + [] == head;
    } else {
      ChildIsCounted(ns[1..], m - 1, x);
      OneChildContributes(parent, ancestor, ns[1..], m - 1, retain, x);
      AddsIsCounted(parent, ancestor, ns[0], retain, x);
      assert head == [] && [] + rest == rest;
    }
  }

  lemma {:induction false} ChildIsCounted(ns: seq<Node>, m: nat, x: nat)
    requires m < |ns|
    ensures IdCount(ns[m], x) <= IdCountOf(ns, x)
  {
    if m > 0 {
      ChildIsCounted(ns[1..], m - 1, x);
    }
  }

  /** The end of a path is counted at its head, once more than what is off the path. */
  lemma {:induction false} IdIsCounted(chain: seq<Node>)
    requires chain != [] && Linked(chain)
    ensures IdCount(chain[|chain| - 1], chain[|chain| - 1].id) <= IdCount(chain[0], chain[|chain| - 1].id)
    ensures IdCount(chain[0], chain[|chain| - 1].id) >= 1
  {
    if |chain| > 1 {
      IdIsCounted(chain[1..]);
      NextIsCounted(chain, chain[|chain| - 1].id);
    }
  }

  lemma NextIsCounted(chain: seq<Node>, x: nat)
    requires |chain| > 1 && Linked(chain)
    ensures IdCount(chain[1], x) <= IdCount(chain[0], x)
    ensures chain[1] in chain[0].children ==> IdCount(chain[1], x) <= IdCountOf(chain[0].children, x)
    ensures chain[1] !in chain[0].children ==> IdCount(chain[1], x) <= IdCountOf(chain[0].strays, x)
  {
    if chain[1] in chain[0].children {
      var m :| 0 <= m < |chain[0].children| && chain[0].children[m] == chain[1];
      ChildIsCounted(chain[0].children, m, x);
    } else {
      var m :| 0 <= m < |chain[0].strays| && chain[0].strays[m] == chain[1];
      ChildIsCounted(chain[0].strays, m, x);
    }
  }

  lemma UnvisitedBelow(chain: seq<Node>)
    requires |chain| > 1
    ensures Unvisited(chain) <==> chain[1] !in chain[0].children || Unvisited(chain[1..])
  {
    var rest := chain[1..];
    if HasStray(chain) && chain[1] in chain[0].children {
      var i :| 0 <= i < |chain| - 1 && chain[i + 1] !in chain[i].children;
      assert rest[i] !in rest[i - 1].children;
    }
    if HasStray(rest) {
      var i :| 0 <= i < |rest| - 1 && rest[i + 1] !in rest[i].children;
      assert chain[i + 2] !in chain[i + 1].children;
    }
  }

  /** What the child list of `chain[0]` adds of the end of the path, for a visit handed on by `parent`. */
  lemma ThroughLink(chain: seq<Node>, parent: Kind, ancestor: Option<Cause>, retain: bool)
    requires |chain| > 1 && Linked(chain) && IdCount(chain[0], chain[|chain| - 1].id) <= 1
    ensures var x := chain[|chain| - 1].id;
      MarksOf(BuildChildren(parent, ancestor, chain[0].children, retain), x) ==
      if chain[1] in chain[0].children then Adds(parent, ancestor, chain[1], retain, x) else []
  {
    var x := chain[|chain| - 1].id;
    IdIsCounted(chain[1..]);
    NextIsCounted(chain, x);
    if chain[1] in chain[0].children {
      var m :| 0 <= m < |chain[0].children| && chain[0].children[m] == chain[1];
      OneChildContributes(parent, ancestor, chain[0].children, m, retain, x);
    } else {
      ChildrenAreCounted(parent, ancestor, chain[0].children, retain, x);
    }
  }

  /** Where the walk goes from `parent` into a path below it. */
  ghost function Enters(parent: Kind, ancestor: Option<Cause>, line: seq<Node>, retain: bool): Passed {
    if line == [] then Pruned
    else
      match Hand(parent, ancestor, line[0].kind, retain)
      case Pruned => Pruned
      case Reached(cause) => Arrives(line, cause, retain)
  }

  /** Below a node of the layout the walk goes on as it enters the rest of the path. */
  lemma EntersRest(chain: seq<Node>, cause: Option<Cause>, retain: bool)
    requires |chain| > 1 && !IsSlot(chain[0].kind) && !IsSlot(chain[|chain| - 1].kind)
    ensures Arrives(Plain(chain), cause, retain) == Enters(chain[0].kind, cause, Plain(chain[1..]), retain)
    ensures Plain(chain) != [] && Plain(chain)[0] == chain[0]
  {
    var rest := Plain(chain[1..]);
    PlainKeeps(chain);
    PlainKeeps(chain[1..]);
    assert ([chain[0]] + rest)[1..] == rest;
  }

  /** What a path should add of its end: nothing if the layout has no place for it, else what is built where the walk arrives. */
  ghost function EndMarks(chain: seq<Node>, parent: Kind, ancestor: Option<Cause>, retain: bool): seq<Option<Cause>>
    requires chain != []
  {
    var t := chain[|chain| - 1];
    if Unvisited(chain) then [] else Built(t, Enters(parent, ancestor, Plain(chain), retain), retain, t.id)
  }

  lemma EndAlone(t: Node, parent: Kind, ancestor: Option<Cause>, retain: bool)
    requires IdCount(t, t.id) <= 1
    ensures Adds(parent, ancestor, t, retain, t.id) == EndMarks([t], parent, ancestor, retain)
  {
    var chain := [t];
    assert !HasStray(chain);
    if IsSlot(t.kind) {
      ChildrenAreCounted(parent, ancestor, t.children, retain, t.id);
    } else {
      assert chain[1..] == [] && Plain(chain) == [t] + [] == [t];
    }
  }

  lemma SlotPasses(chain: seq<Node>, parent: Kind, ancestor: Option<Cause>, retain: bool)
    requires |chain| > 1 && IsSlot(chain[0].kind)
    ensures EndMarks(chain, parent, ancestor, retain) ==
            if chain[1] in chain[0].children then EndMarks(chain[1..], parent, ancestor, retain) else []
  {
    UnvisitedBelow(chain);
    assert Plain(chain) == [] + Plain(chain[1..]) == Plain(chain[1..]);
  }

  lemma NodePasses(chain: seq<Node>, cause: Option<Cause>, retain: bool)
    requires |chain| > 1 && !IsSlot(chain[0].kind)
    ensures var t := chain[|chain| - 1];
      (if Unvisited(chain) then [] else Built(t, Arrives(Plain(chain), cause, retain), retain, t.id)) ==
      if chain[1] in chain[0].children then EndMarks(chain[1..], chain[0].kind, cause, retain) else []
  {
    UnvisitedBelow(chain);
    if !Unvisited(chain) {
      EntersRest(chain, cause, retain);
    }
  }

  lemma {:induction false} PathAdds(chain: seq<Node>, parent: Kind, ancestor: Option<Cause>, retain: bool)
    requires chain != [] && Linked(chain) && IdCount(chain[0], chain[|chain| - 1].id) <= 1
    requires forall i :: 0 <= i < |chain| - 1 ==> chain[i].kind.Element?
    ensures Adds(parent, ancestor, chain[0], retain, chain[|chain| - 1].id) == EndMarks(chain, parent, ancestor, retain)
    decreases |chain|, 1
  {
    var t := chain[|chain| - 1];
    if |chain| == 1 {
      assert chain == [t];
      EndAlone(t, parent, ancestor, retain);
    } else if IsSlot(chain[0].kind) {
      assert IdCount(chain[1], t.id) <= 1 by { NextIsCounted(chain, t.id); }
      ThroughLink(chain, parent, ancestor, retain);
      SlotPasses(chain, parent, ancestor, retain);
      PathAdds(chain[1..], parent, ancestor, retain);
    } else {
      HeadAdds(chain, parent, ancestor, retain);
    }
  }

  lemma {:induction false} HeadAdds(chain: seq<Node>, parent: Kind, ancestor: Option<Cause>, retain: bool)
    requires |chain| > 1 && Linked(chain) && IdCount(chain[0], chain[|chain| - 1].id) <= 1 && !IsSlot(chain[0].kind)
    requires forall i :: 0 <= i < |chain| - 1 ==> chain[i].kind.Element?
    ensures Adds(parent, ancestor, chain[0], retain, chain[|chain| - 1].id) == EndMarks(chain, parent, ancestor, retain)
    decreases |chain|, 0
  {
    var p := Hand(parent, ancestor, chain[0].kind, retain);
    if p.Reached? {
      NodeAdds(chain, p.cause, retain);
    }
    if !Unvisited(chain) {
      PlainKeeps(chain);
    }
  }

  /** The same for a node of the layout at the head, visited with `cause`. */
  lemma {:induction false} NodeAdds(chain: seq<Node>, cause: Option<Cause>, retain: bool)
    requires |chain| > 1 && Linked(chain) && IdCount(chain[0], chain[|chain| - 1].id) <= 1
    requires (chain[0].kind.Document? || chain[0].kind.Element?) && !IsSlot(chain[0].kind)
    requires forall i :: 1 <= i < |chain| - 1 ==> chain[i].kind.Element?
    ensures var t := chain[|chain| - 1];
      Built(chain[0], Reached(cause), retain, t.id) ==
      if Unvisited(chain) then [] else Built(t, Arrives(Plain(chain), cause, retain), retain, t.id)
    decreases |chain| - 1, 2
  {
    var t, top, rest := chain[|chain| - 1], chain[0], chain[1..];
    IdIsCounted(rest);
    assert top.id != t.id && IdCount(rest[0], t.id) <= 1 by { NextIsCounted(chain, t.id); }
    PrunedBelow(top, cause, retain, t.id);
    ThroughLink(chain, top.kind, cause, retain);
    NodePasses(chain, cause, retain);
    if chain[1] in top.children {
      PathAdds(rest, top.kind, cause, retain);
    }
  }

  /** What is built for a node whose own identity is another: what is built for its children. */
  lemma PrunedBelow(n: Node, cause: Option<Cause>, retain: bool, x: nat)
    requires (n.kind.Document? || n.kind.Element?) && n.id != x
    ensures Built(n, Reached(cause), retain, x) == MarksOf(BuildChildren(n.kind, cause, n.children, retain), x)
  {
    if n.kind.Element? && Build(n, cause, retain).None? {
      NothingHanded(n.kind, cause, n.children, retain);
      assert MarksOf([], x) == [];
    }
  }

  /** An element that is not built hands nothing to its children. */
  lemma {:induction false} NothingHanded(parent: Kind, ancestor: Option<Cause>, ns: seq<Node>, retain: bool)
    requires parent.Element? && HiddenCause(parent, ancestor) == Some(NotRendered) && !retain
    ensures BuildChildren(parent, ancestor, ns, retain) == []
    decreases ns
  {
    if ns != [] {
      NothingHanded(parent, ancestor, ns[1..], retain);
      if IsSlot(ns[0].kind) {
        NothingHanded(parent, ancestor, ns[0].children, retain);
      }
    }
  }

  /** The inspected node is built, and with which cause, exactly as the top-down walk visits it. */
  lemma BuiltWhereArrived(chain: seq<Node>, retain: bool)
    requires IsPath(chain) && IdCount(chain[0], chain[|chain| - 1].id) <= 1
    ensures var t := chain[|chain| - 1];
      Built(chain[0], Reached(None), retain, t.id) == Built(t, Visit(chain, retain), retain, t.id)
  {
    NodeAdds(chain, None, retain);
    if !Unvisited(chain) {
      PlainIsLine(chain);
    }
  }

  /** A distinct identity does not occur in what is built below its own node. */
  lemma OwnMark(n: Node, cause: Option<Cause>, retain: bool)
    requires IdCount(n, n.id) <= 1 && (n.kind.Element? || n.kind.Text?)
    ensures Built(n, Reached(cause), retain, n.id) ==
            if Build(n, cause, retain).Some? then [Build(n, cause, retain).value.hidden] else []
  {
    ChildrenAreCounted(n.kind, cause, n.children, retain, n.id);
    assert MarksOf([], n.id) == [];
    if Build(n, cause, retain).Some? {
      var hidden := [Build(n, cause, retain).value.hidden];
      assert hidden + [] == hidden;
    }
  }

  // ----- what the node carries -----

  /** An element's own reason to be hidden: its first mark, else its render state. */
  ghost predicate SelfHidden(k: Kind, cause: Option<Cause>)
    requires k.Element?
  {
    && (k.ariaHidden ==> cause == Some(AriaElement))
    && (!k.ariaHidden && k.inert ==> cause == Some(InertElement))
    && (!k.ariaHidden && !k.inert && (k.undisplayed || k.render == Unrendered) ==> cause == Some(NotRendered))
    && (!Marked(k) && k.render == Invisible ==> cause == Some(NotVisible))
    && (!Marked(k) && k.render == Rendered ==> cause == None)
  }

  /** What hides the node from above, along the layout. */
  ghost function FromAbove(chain: seq<Node>): Option<Cause>
    requires IsPath(chain)
  {
    var layout := Plain(chain);
    if HiddenAbove(layout) then Some(Below(layout[FirstHider(layout)].kind))
    else if !chain[|chain| - 1].kind.Element? && ParentInvisible(layout) then Some(NotVisible)
    else None
  }

  /**
   What the tree built for the document carries for the inspected node, in the normal tree
   and in one that retains hidden subtrees. Nothing for a node the layout has no place for,
   for a comment or the like, and for blank text. Otherwise one node, unless the normal
   tree leaves it out: text with what hides it from above, an element with that or else
   with its own reason. The normal tree leaves out what is hidden from above, and an
   element that is itself unrendered and owns no other nodes.
   */
  lemma WhatIsCarried(chain: seq<Node>, retain: bool)
    requires IsPath(chain) && IdCount(chain[0], chain[|chain| - 1].id) <= 1
    ensures var t, above := chain[|chain| - 1], FromAbove(chain);
      var carried := Built(chain[0], Reached(None), retain, t.id);
      && (Unvisited(chain) || t.kind.Other? || (t.kind.Text? && t.kind.blank) || (above.Some? && !retain) ==> carried == [])
      && (!Unvisited(chain) && t.kind.Text? && !t.kind.blank && (above.None? || retain) ==> carried == [above])
      && (!Unvisited(chain) && t.kind.Element? && above.Some? && retain ==> carried == [above])
      && (!Unvisited(chain) && t.kind.Element? && above.None? ==>
            if SelfHidden(t.kind, Some(NotRendered)) && !retain && !t.kind.owner then carried == []
            else |carried| == 1 && SelfHidden(t.kind, carried[0]))
  {
    var t := chain[|chain| - 1];
    BuiltWhereArrived(chain, retain);
    if !Unvisited(chain) {
      VisitCause(chain, retain);
      IdIsCounted(chain);
      var v := Visit(chain, retain);
      if v.Reached? && !t.kind.Other? {
        OwnMark(t, v.cause, retain);
      }
    }
  }

  /**
   The inspected node on its own is built from the bottom-up answer, with hidden subtrees
   retained. A text that is not blank carries the answer; an element carries it, or else
   its own reason.
   */
  lemma InspectedCarries(chain: seq<Node>)
    requires IsPath(chain) && RenderInherits(chain) && IdCount(chain[0], chain[|chain| - 1].id) <= 1
    ensures var t, answer := chain[|chain| - 1], HiddenAncestor(chain);
      var carried := Built(t, Reached(answer), true, t.id);
      && (t.kind.Text? ==> carried == if t.kind.blank then [] else [answer])
      && (t.kind.Element? ==> |carried| == 1 && if answer.Some? then carried[0] == answer else SelfHidden(t.kind, carried[0]))
      && (t.kind.Other? ==> carried == [])
  {
    var t := chain[|chain| - 1];
    IdIsCounted(chain);
    if !t.kind.Other? {
      OwnMark(t, HiddenAncestor(chain), true);
    }
  }

  /**
   It carries there what it carries in the whole tree with hidden subtrees retained if and
   only if the two ways name the same cause (`CausesAgreeIff`), or only the bottom-up one
   names any and it is the element's own reason too.
   */
  lemma InspectedIsCarried(chain: seq<Node>)
    requires IsPath(chain) && RenderInherits(chain) && IdCount(chain[0], chain[|chain| - 1].id) <= 1 && !Unvisited(chain)
    ensures var t, answer, above := chain[|chain| - 1], HiddenAncestor(chain), FromAbove(chain);
      var inspected, carried := Built(t, Reached(answer), true, t.id), Built(chain[0], Reached(None), true, t.id);
      && (t.kind.Text? && !t.kind.blank ==> (inspected == carried <==> answer == above))
      && (t.kind.Element? ==> (inspected == carried <==> answer == above || (above.None? && SelfHidden(t.kind, answer))))
  {
    WhatIsCarried(chain, true);
    InspectedCarries(chain);
    if chain[|chain| - 1].kind.Element? {
      BottomUpCause(chain);
      LayoutHidersHide(chain);
    }
  }

  /**
   Presence in the finished tree in terms of the bottom-up answer. A text is there exactly
   if it is not blank and the walk finds no cause, or, in the exceptional situations, finds
   one. An element is there exactly if the same holds and it is not itself unrendered
   (unless it owns other nodes).
   */
  lemma InTreeIffNotHidden(chain: seq<Node>)
    requires IsPath(chain) && RenderInherits(chain) && IdCount(chain[0], chain[|chain| - 1].id) <= 1
    ensures var t := chain[|chain| - 1];
      var visible := HiddenAncestor(chain).None? <==> !Exceptional(chain);
      var present := |Built(chain[0], Reached(None), false, t.id)| == 1;
      && (t.kind.Text? ==> (present <==> !t.kind.blank && visible))
      && (t.kind.Element? ==> (present <==> visible && (!SelfHidden(t.kind, Some(NotRendered)) || t.kind.owner)))
      && (t.kind.Other? ==> !present)
  {
    BottomUpIsTopDown(chain, false);
    WhatIsCarried(chain, false);
    if !Unvisited(chain) {
      VisitCause(chain, false);
    }
  }
}
