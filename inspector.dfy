/**
 * The element inspector script that runs inside the preview frame: while it is
 * active, moving the mouse outlines the element beneath it and a click
 * selects it and reports it to the parent window. The DOM is reduced to element
 * records, the highlight box to its style fields, and `postMessage` to an
 * ordered outbox of messages.
 */
module ElementInspector {
  import opened Wrappers
  import opened Strings

  /** The id of the highlight box; events targeting it are ignored. */
  const HighlightId := "element-inspector-highlight"
  /** The box colours while hovering (blue) and once an element is selected (green). */
  const IdleBorder := "#3b82f6"
  const IdleBackground := "rgba(59, 130, 246, 0.1)"
  const SelectedBorder := "#10b981"
  const SelectedBackground := "rgba(16, 185, 129, 0.1)"
  /** The body cursor while the inspector is active, and after it is switched off. */
  const ActiveCursor := "crosshair"
  const InactiveCursor := "default"
  /** The two message types the script listens for. */
  const ToggleType := "TOGGLE_INSPECTOR"
  const DeselectType := "DESELECT_ELEMENT"
  /** At most this many characters of an element's text are reported. */
  const MaxText := 100

  /** What `getBoundingClientRect` returns, in whole pixels. */
  datatype Rect = Rect(top: int, left: int, width: int, height: int)

  /** A DOM element as the script sees it. */
  datatype Element = Element(
    id: string,
    className: string,
    tagName: string,
    outerHTML: string,
    textContent: Option<string>,
    rect: Rect)

  /** `window.pageXOffset`/`pageYOffset` and the document element's `scrollLeft`/`scrollTop`. */
  datatype Scroll = Scroll(pageXOffset: int, pageYOffset: int, scrollLeft: int, scrollTop: int)

  /** The page coordinates an element occupies (`getElementPosition`). */
  datatype Geometry = Geometry(top: int, left: int, width: int, height: int)

  /** The box's `style.display`: never set, `'block'` or `'none'`. */
  datatype Display = Unset | Block | Hidden

  /** The `data` of an `ELEMENT_SELECTED` message. */
  datatype SelectedElement = SelectedElement(html: string, selector: string, tagName: string, textContent: string)

  /** A message posted to the parent window. */
  datatype OutMessage =
    | ElementSelected(data: SelectedElement)
    | InspectorStateChanged(active: bool)
    | InspectorReady

  /** A message from the parent window: its `type` and its `active` field. */
  datatype HostMessage = HostMessage(messageType: string, active: bool)

  // ----- Pure helpers -----

  /** `a || b` on numbers: a zero offset falls back to the other reading. */
  function FirstNonZero(a: int, b: int): int
  {
    if a != 0 then a else b
  }

  /** `getElementPosition`: the rect moved by the scroll offset; the size is the rect's. */
  function ElementPosition(rect: Rect, scroll: Scroll): (g: Geometry)
    ensures g.width == rect.width && g.height == rect.height
    ensures g.top - rect.top == FirstNonZero(scroll.pageYOffset, scroll.scrollTop)
    ensures g.left - rect.left == FirstNonZero(scroll.pageXOffset, scroll.scrollLeft)
  {
    Geometry(
      rect.top + FirstNonZero(scroll.pageYOffset, scroll.scrollTop),
      rect.left + FirstNonZero(scroll.pageXOffset, scroll.scrollLeft),
      rect.width,
      rect.height)
  }

  /** With the page unscrolled the box sits exactly on the element's rect. */
  lemma UnscrolledPositionIsRect(rect: Rect)
    ensures var g := ElementPosition(rect, Scroll(0, 0, 0, 0));
      g == Geometry(rect.top, rect.left, rect.width, rect.height)
  {
  }

  /** `pieces.filter(c => c.trim())`: the pieces that are not blank, in order. */
  function NonBlank(pieces: seq<string>): (r: seq<string>)
    ensures |r| <= |pieces|
    ensures forall k :: 0 <= k < |r| ==> r[k] in pieces && !AllWhitespace(r[k])
    ensures forall p :: p in pieces && !AllWhitespace(p) ==> p in r
  {
    if pieces == [] then []
    else
      var rest := NonBlank(pieces[1..]);
      assert pieces == [pieces[0]] + pieces[1..];
      assert forall p :: p in pieces[1..] ==> p in pieces;
      assert forall p :: p in pieces ==> p == pieces[0] || p in pieces[1..];
      TrimEmptyIffBlank(pieces[0]);
      if Trim(pieces[0]) != [] then [pieces[0]] + rest else rest
  }

  /** The filter keeps a single piece exactly when it is not blank. */
  lemma NonBlankSingle(p: string)
    ensures NonBlank([p]) == if AllWhitespace(p) then [] else [p]
  {
    assert [p][1..] == [];
    TrimEmptyIffBlank(p);
  }

  /**
   * The filter works piece by piece: filtering two runs of pieces one after
   * the other keeps the order and the number of the pieces kept.
   */
  lemma {:induction false} NonBlankAppend(a: seq<string>, b: seq<string>)
    ensures NonBlank(a + b) == NonBlank(a) + NonBlank(b)
    decreases |a|
  {
    if a == [] {
      assert a + b == b;
    } else {
      assert (a + b)[0] == a[0];
      assert (a + b)[1..] == a[1..] + b;
      NonBlankAppend(a[1..], b);
    }
  }

  /** `className.split(' ').filter(c => c.trim())`. */
  function ClassNames(className: string): (r: seq<string>)
    ensures forall k :: 0 <= k < |r| ==> ' ' !in r[k] && !AllWhitespace(r[k])
  {
    NonBlank(Split(className, ' '))
  }

  /** `getElementSelector`: `#id`, else `tag.class1.class2`, else the tag. */
  function Selector(el: Element): string
  {
    if el.id != "" then "#" + el.id
    else if el.className != "" && |ClassNames(el.className)| > 0 then
      ToLower(el.tagName) + "." + Join(ClassNames(el.className), ".")
    else ToLower(el.tagName)
  }

  /**
   * How the selector is chosen: an element with an id is named by it alone;
   * without one, the lower-cased tag comes first, followed by the classes
   * exactly when the class attribute holds a non-blank class.
   */
  lemma SelectorCases(el: Element)
    ensures el.id != "" ==> Selector(el) == "#" + el.id
    ensures el.id == "" ==>
      && |ToLower(el.tagName)| <= |Selector(el)|
      && Selector(el)[..|el.tagName|] == ToLower(el.tagName)
    ensures el.id == "" ==>
      (Selector(el) == ToLower(el.tagName) <==> !HasClass(el.className))
  {
    if el.id == "" {
      SelectorStartsWithTag(el);
      SelectorIsTagIff(el);
    }
  }

  lemma SelectorStartsWithTag(el: Element)
    requires el.id == ""
    ensures |ToLower(el.tagName)| <= |Selector(el)|
    ensures Selector(el)[..|el.tagName|] == ToLower(el.tagName)
  {
    SelectorWithoutId(el);
    var names := ClassNames(el.className);
    TagPrefix(Selector(el), ToLower(el.tagName), Join(names, "."), |names| > 0);
  }

  lemma SelectorIsTagIff(el: Element)
    requires el.id == ""
    ensures Selector(el) == ToLower(el.tagName) <==> !HasClass(el.className)
  {
    HasClassIff(el.className);
    SelectorWithoutId(el);
    var names := ClassNames(el.className);
    TagPrefix(Selector(el), ToLower(el.tagName), Join(names, "."), |names| > 0);
  }

  /** The selector shape, without reference to the element: the tag, dotted onward or not. */
  lemma TagPrefix(s: string, tag: string, joined: string, dotted: bool)
    requires s == if dotted then tag + "." + joined else tag
    ensures |tag| <= |s| && s[..|tag|] == tag
    ensures s == tag <==> !dotted
  {
    if dotted {
      Dotted(tag, joined);
    }
  }

  /** Without an id the selector is the tag, followed by the classes when there are any. */
  lemma SelectorWithoutId(el: Element)
    requires el.id == ""
    ensures |ClassNames(el.className)| > 0 ==>
      Selector(el) == ToLower(el.tagName) + "." + Join(ClassNames(el.className), ".")
    ensures |ClassNames(el.className)| == 0 ==> Selector(el) == ToLower(el.tagName)
  {
    ClassNamesOfEmpty();
  }

  /** `t + "." + j` starts with `t`, is longer than it, and ends with `j`. */
  lemma Dotted(t: string, j: string)
    ensures var s := t + "." + j;
      && |s| == |t| + 1 + |j| && s[..|t|] == t && s[|t| + 1..] == j && s != t
  {
    var s := t + "." + j;
    assert s[..|t|] == t;
    assert s[|t| + 1..] == j;
  }

  /** Some piece of `className.split(' ')` is not blank. */
  predicate HasClass(className: string)
  {
    exists k :: 0 <= k < |Split(className, ' ')| && !AllWhitespace(Split(className, ' ')[k])
  }

  /** The filter keeps something exactly when some piece is not blank. */
  lemma HasClassIff(className: string)
    ensures |ClassNames(className)| > 0 <==> HasClass(className)
  {
    NonBlankIff(Split(className, ' '));
  }

  lemma {:induction false} NonBlankIff(pieces: seq<string>)
    ensures |NonBlank(pieces)| > 0 <==> exists k :: 0 <= k < |pieces| && !AllWhitespace(pieces[k])
  {
    if pieces != [] {
      NonBlankIff(pieces[1..]);
      TrimEmptyIffBlank(pieces[0]);
      if exists k :: 0 <= k < |pieces[1..]| && !AllWhitespace(pieces[1..][k]) {
        var k :| 0 <= k < |pieces[1..]| && !AllWhitespace(pieces[1..][k]);
        assert pieces[1..][k] == pieces[k + 1];
      }
      if exists k :: 0 <= k < |pieces| && !AllWhitespace(pieces[k]) {
        var k :| 0 <= k < |pieces| && !AllWhitespace(pieces[k]);
        if k > 0 {
          assert pieces[1..][k - 1] == pieces[k];
        }
      }
    }
  }

  /** An empty class attribute has no class names. */
  lemma ClassNamesOfEmpty()
    ensures ClassNames("") == []
  {
    assert Split("", ' ') == [""];
  }

  /** Without an id, the class names can be read back off the selector (when no class name holds a dot). */
  lemma SelectorListsClasses(el: Element)
    requires el.id == "" && '.' !in el.className
    requires |ClassNames(el.className)| > 0
    ensures var tag := ToLower(el.tagName);
      && Selector(el)[..|tag|] == tag
      && Split(Selector(el)[|tag| + 1..], '.') == ClassNames(el.className)
  {
    var names := ClassNames(el.className);
    var tag := ToLower(el.tagName);
    forall k | 0 <= k < |names|
      ensures '.' !in names[k]
    {
      NoDotInClassName(el.className, names[k]);
    }
    SelectorWithoutId(el);
    Dotted(tag, Join(names, "."));
    SplitJoin(names, '.');
  }

  /** A class name is a piece of the class attribute, so it holds no character the attribute lacks. */
  lemma NoDotInClassName(className: string, name: string)
    requires '.' !in className
    requires name in ClassNames(className)
    ensures '.' !in name
  {
    var pieces := Split(className, ' ');
    assert name in pieces;
    var k :| 0 <= k < |pieces| && pieces[k] == name;
    SplitPieceChars(className, ' ', k);
  }

  /** `textContent?.trim().substring(0, 100) || ''`. */
  function ReportedText(textContent: Option<string>): (r: string)
    ensures |r| <= MaxText
    ensures textContent.None? ==> r == ""
    ensures textContent.Some? ==> |r| <= |Trim(textContent.value)| && r == Trim(textContent.value)[..|r|]
    ensures textContent.Some? && |Trim(textContent.value)| <= MaxText ==> r == Trim(textContent.value)
    ensures textContent.Some? && |Trim(textContent.value)| > MaxText ==> r == Trim(textContent.value)[..MaxText]
  {
    match textContent
    case None => ""
    case Some(t) => Take(Trim(t), MaxText)
  }

  /** The reported text starts with no white space and is blank only when the whole text is. */
  lemma ReportedTextShape(t: string)
    ensures var r := ReportedText(Some(t));
      && (r == [] || !IsWhitespace(r[0]))
      && (r == [] <==> AllWhitespace(t))
  {
    TrimEmptyIffBlank(t);
  }

  /** The `data` sent for a clicked element. */
  function Describe(el: Element): (d: SelectedElement)
    ensures d.html == el.outerHTML
    ensures |d.tagName| == |el.tagName|
    ensures |d.textContent| <= MaxText
  {
    SelectedElement(el.outerHTML, Selector(el), ToLower(el.tagName), ReportedText(el.textContent))
  }

  // ----- The highlight box -----

  /** The selected and the idle colours are told apart by their first digit. */
  lemma ColoursDiffer()
    ensures SelectedBorder != IdleBorder
  {
    assert SelectedBorder[1] != IdleBorder[1];
  }

  /** Posting anything but `INSPECTOR_READY` keeps it the first and only such message. */
  lemma ReadyStaysFirst(outbox: seq<OutMessage>, m: OutMessage)
    requires |outbox| >= 1 && outbox[0] == InspectorReady
    requires forall k :: 1 <= k < |outbox| ==> !outbox[k].InspectorReady?
    requires !m.InspectorReady?
    ensures var o := outbox + [m];
      |o| >= 1 && o[0] == InspectorReady && forall k :: 1 <= k < |o| ==> !o[k].InspectorReady?
  {
  }

  /** The overlay `div`; only the style fields the script changes are kept. */
  class HighlightBox {
    var display: Display
    var borderColor: string
    var background: string
    var geometry: Option<Geometry>

    /** `createHighlightBox`: a blue box with no position, its `display` never set. */
    constructor Create()
      ensures display == Unset && geometry.None?
      ensures borderColor == IdleBorder && background == IdleBackground
    {
      display := Unset;
      borderColor := IdleBorder;
      background := IdleBackground;
      geometry := None;
    }

    predicate IsSelectedColour()
      reads this
    {
      borderColor == SelectedBorder && background == SelectedBackground
    }

    predicate IsIdleColour()
      reads this
    {
      borderColor == IdleBorder && background == IdleBackground
    }
  }

  // ----- The script's state -----

  class Inspector {
    var active: bool
    var selected: Option<Element>
    var box: HighlightBox?
    var cursor: string
    var listening: bool
    var outbox: seq<OutMessage>

    /**
     * What every handler keeps: listeners are attached exactly while active; an
     * active inspector has its box and the crosshair cursor; an inactive one shows
     * no box; the box is green exactly while an element is selected; the ready
     * message is the first and only one of its kind.
     */
    predicate Valid()
      reads this, box
    {
      && listening == active
      && (active ==> box != null && cursor == ActiveCursor)
      && (!active ==> cursor == "" || cursor == InactiveCursor)
      && (!active && box != null ==> box.display == Hidden)
      && (selected.Some? ==> box != null)
      && (box != null ==> (box.IsSelectedColour() <==> selected.Some?))
      && (box != null ==> box.IsSelectedColour() || box.IsIdleColour())
      && |outbox| >= 1 && outbox[0] == InspectorReady
      && (forall k :: 1 <= k < |outbox| ==> !outbox[k].InspectorReady?)
    }

    /** Loading the script: inactive, nothing selected, no box, and `INSPECTOR_READY` posted. */
    constructor Load()
      ensures Valid()
      ensures !active && selected.None? && box == null && !listening && cursor == ""
      ensures outbox == [InspectorReady]
    {
      active := false;
      selected := None;
      box := null;
      cursor := "";
      listening := false;
      outbox := [InspectorReady];
    }

    /** `hideHighlight`. */
    method HideHighlight()
      modifies box
      ensures box != null ==> box.display == Hidden
      ensures box != null ==> box.geometry == old(box.geometry)
      ensures box != null ==> box.borderColor == old(box.borderColor) && box.background == old(box.background)
    {
      if box != null {
        box.display := Hidden;
      }
    }

    /** `updateHighlight`: place the box over the element and display it. */
    method UpdateHighlight(element: Element, scroll: Scroll)
      modifies box
      ensures box != null ==> box.geometry == Some(ElementPosition(element.rect, scroll)) && box.display == Block
      ensures box != null ==> box.borderColor == old(box.borderColor) && box.background == old(box.background)
    {
      if box == null {
        return;
      }
      box.geometry := Some(ElementPosition(element.rect, scroll));
      box.display := Block;
    }

    /** `toggleInspector(active)`. */
    method ToggleInspector(on: bool)
      requires Valid()
      modifies this, box
      ensures Valid()
      ensures active == on && listening == on && selected == old(selected)
      ensures outbox == old(outbox) + [InspectorStateChanged(on)]
      ensures old(box) != null ==> box == old(box)
      ensures on ==> cursor == ActiveCursor && box != null
      ensures on && old(box) == null ==> fresh(box) && box.display == Unset && box.geometry.None? && box.IsIdleColour()
      ensures on && old(box) != null ==>
        && box.display == old(box.display) && box.geometry == old(box.geometry)
        && box.borderColor == old(box.borderColor) && box.background == old(box.background)
      ensures !on ==> cursor == InactiveCursor && box == old(box)
      ensures !on && box != null ==>
        && box.display == Hidden && box.geometry == old(box.geometry)
        && box.borderColor == old(box.borderColor) && box.background == old(box.background)
    {
      active := on;
      if on {
        if box == null {
          box := new HighlightBox.Create();
        }
        cursor := ActiveCursor;
        listening := true;
      } else {
        cursor := InactiveCursor;
        listening := false;
        HideHighlight();
      }
      outbox := outbox + [InspectorStateChanged(on)];
    }

    /**
     * The capturing `mousemove` listener (`handleMouseMove`): only while active,
     * it stops propagation and, unless the target is the box itself, moves the
     * box over the target.
     */
    method MouseMove(target: Element, scroll: Scroll) returns (propagationStopped: bool)
      requires Valid()
      modifies box
      ensures Valid()
      ensures propagationStopped == active
      ensures box != null ==> box.borderColor == old(box.borderColor) && box.background == old(box.background)
      ensures box != null && (!active || target.id == HighlightId) ==>
        box.display == old(box.display) && box.geometry == old(box.geometry)
      ensures active && target.id != HighlightId ==>
        box != null && box.geometry == Some(ElementPosition(target.rect, scroll)) && box.display == Block
    {
      if !(listening && active) {
        return false;
      }
      propagationStopped := true;
      if target.id == HighlightId {
        return;
      }
      UpdateHighlight(target, scroll);
    }

    /**
     * The capturing `click` listener (`handleClick`): only while active, it
     * prevents the default action and stops propagation; unless the target is
     * the box itself, it selects the target, posts `ELEMENT_SELECTED` and turns
     * the box green where it stands.
     */
    method Click(target: Element) returns (defaultPrevented: bool, propagationStopped: bool)
      requires Valid()
      modifies this, box
      ensures Valid()
      ensures defaultPrevented == old(active) && propagationStopped == old(active)
      ensures active == old(active) && listening == old(listening) && cursor == old(cursor) && box == old(box)
      ensures box != null ==> box.display == old(box.display) && box.geometry == old(box.geometry)
      ensures old(active) && target.id != HighlightId ==>
        && selected == Some(target)
        && outbox == old(outbox) + [ElementSelected(Describe(target))]
        && box != null && box.IsSelectedColour()
      ensures !old(active) || target.id == HighlightId ==>
        && selected == old(selected) && outbox == old(outbox)
        && (box != null ==> box.borderColor == old(box.borderColor) && box.background == old(box.background))
    {
      if !(listening && active) {
        return false, false;
      }
      defaultPrevented, propagationStopped := true, true;
      if target.id == HighlightId {
        return;
      }
      var report := ElementSelected(Describe(target));
      ReadyStaysFirst(outbox, report);
      selected := Some(target);
      outbox := outbox + [report];
      if box != null {
        box.borderColor := SelectedBorder;
        box.background := SelectedBackground;
        ColoursDiffer();
      }
    }

    /**
     * The `message` listener: `TOGGLE_INSPECTOR` toggles, `DESELECT_ELEMENT`
     * clears the selection, hides the box and turns it blue again in either
     * state, and any other type is ignored.
     */
    method Receive(message: HostMessage)
      requires Valid()
      modifies this, box
      ensures Valid()
      ensures old(box) != null ==> box == old(box)
      ensures box == old(box) || fresh(box)
      ensures message.messageType == ToggleType ==>
        && active == message.active && listening == message.active && selected == old(selected)
        && outbox == old(outbox) + [InspectorStateChanged(message.active)]
      ensures message.messageType == ToggleType && message.active ==> cursor == ActiveCursor && box != null
      ensures message.messageType == ToggleType && message.active && old(box) == null ==>
        fresh(box) && box.display == Unset && box.geometry.None? && box.IsIdleColour()
      ensures message.messageType == ToggleType && message.active && old(box) != null ==>
        && box.display == old(box.display) && box.geometry == old(box.geometry)
        && box.borderColor == old(box.borderColor) && box.background == old(box.background)
      ensures message.messageType == ToggleType && !message.active ==> cursor == InactiveCursor && box == old(box)
      ensures message.messageType == ToggleType && !message.active && box != null ==>
        && box.display == Hidden && box.geometry == old(box.geometry)
        && box.borderColor == old(box.borderColor) && box.background == old(box.background)
      ensures message.messageType == DeselectType ==>
        && active == old(active) && cursor == old(cursor) && box == old(box)
        && selected.None? && outbox == old(outbox)
        && (box != null ==> box.display == Hidden && box.IsIdleColour() && box.geometry == old(box.geometry))
      ensures message.messageType != ToggleType && message.messageType != DeselectType ==>
        && active == old(active) && selected == old(selected) && cursor == old(cursor)
        && box == old(box) && outbox == old(outbox)
        && (box != null ==> box.display == old(box.display) && box.geometry == old(box.geometry)
                            && box.borderColor == old(box.borderColor) && box.background == old(box.background))
    {
      if message.messageType == ToggleType {
        ToggleInspector(message.active);
      }
      if message.messageType == DeselectType {
        selected := None;
        HideHighlight();
        if box != null {
          box.borderColor := IdleBorder;
          box.background := IdleBackground;
        }
      }
    }
  }

  /**
   * A whole session: the parent switches the inspector on, the user hovers and
   * clicks an element; the parent hears of readiness, of the state change and of
   * the selection, in that order.
   */
  method SelectOneElement(target: Element, scroll: Scroll) returns (messages: seq<OutMessage>)
    requires target.id != HighlightId
    ensures messages == [InspectorReady, InspectorStateChanged(true), ElementSelected(Describe(target))]
  {
    var inspector := new Inspector.Load();
    inspector.Receive(HostMessage(ToggleType, true));
    var stopped := inspector.MouseMove(target, scroll);
    var prevented, stoppedClick := inspector.Click(target);
    messages := inspector.outbox;
  }

  /** Events before the parent switches the inspector on are not reported. */
  method ClickWhileInactive(target: Element) returns (messages: seq<OutMessage>, prevented: bool)
    ensures messages == [InspectorReady] && !prevented
  {
    var inspector := new Inspector.Load();
    var stopped;
    prevented, stopped := inspector.Click(target);
    messages := inspector.outbox;
  }
}
