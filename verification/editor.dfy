/** The target editor behind the interface: a layer stack with a selected
    layer and a selected element, the editing commands, and the validation
    that keeps every layer and element editable. Widget events become
    parameters: the list-box selection is an optional index, and entry
    text arrives already parsed (None when Python's int() or float() would
    raise ValueError). */
module Editor {
  import opened Layers

  datatype Option<T> = None | Some(value: T)

  /** A new element is silicon at 100 atomic percent. */
  const DefaultZ := 14
  const DefaultPercent := 100.0
  /** A new layer is 1000 TFU thick with a placeholder stopping power that
      the segmentation later replaces. */
  const DefaultDensity := 1000.0
  const PlaceholderStopping := 0.01
  /** Accepted atomic numbers lie strictly between 0 and this bound. */
  const ZBound := 119

  function NewElement(): Element {
    Element(DefaultZ, DefaultPercent)
  }

  function NewLayer(): Layer {
    Layer(DefaultDensity, PlaceholderStopping, [NewElement()])
  }

  /** The editor: the target, the selected layer and the selected element
      of that layer. */
  datatype State = State(target: Target, layer: nat, element: nat)

  predicate ElementOk(e: Element) {
    0 < e.z < ZBound && 0.0 <= e.percentAt <= 100.0
  }

  predicate LayerOk(l: Layer) {
    l.arealDensity > 0.0 && |l.elements| > 0
    && forall j :: 0 <= j < |l.elements| ==> ElementOk(l.elements[j])
  }

  /** What every command keeps: at least one layer, every layer positive
      and non-empty with admissible elements, and both selections in
      range. */
  predicate Valid(s: State) {
    |s.target| > 0
    && (forall i :: 0 <= i < |s.target| ==> LayerOk(s.target[i]))
    && s.layer < |s.target|
    && s.element < |s.target[s.layer].elements|
  }

  /** The editor opens on one default layer, both selections at 0. */
  function Initial(): (s: State)
    ensures Valid(s)
    ensures |s.target| == 1 && s.target[0].elements == [Element(14, 100.0)]
    ensures s.target[0].arealDensity == 1000.0
  {
    State([NewLayer()], 0, 0)
  }

  // ------------------------------------------------------------ layer list

  /** Append a default layer and select it. */
  function AddLayer(s: State): (r: State)
    ensures Valid(s) ==> Valid(r)
    ensures |r.target| == |s.target| + 1 && r.layer == |s.target| && r.element == 0
    ensures r.target[..|s.target|] == s.target && r.target[r.layer] == NewLayer()
  {
    State(s.target + [NewLayer()], |s.target|, 0)
  }

  /** Delete the selected layer unless it is the only one; the selection
      moves up by one, floored at 0. */
  function RemoveLayer(s: State): (r: State)
    requires s.layer < |s.target|
    ensures Valid(s) ==> Valid(r)
    ensures |s.target| > 1 ==>
              r.target == s.target[..s.layer] + s.target[s.layer + 1..]
              && r.layer == (if s.layer == 0 then 0 else s.layer - 1) && r.element == 0
    ensures |s.target| <= 1 ==> r == s
  {
    if |s.target| > 1 then
      State(s.target[..s.layer] + s.target[s.layer + 1..], if s.layer == 0 then 0 else s.layer - 1, 0)
    else s
  }

  /** Append a copy of the selected layer and select the copy. The element
      selection is kept, and the copy has the same elements. */
  function DuplicateLayer(s: State): (r: State)
    requires s.layer < |s.target|
    ensures Valid(s) ==> Valid(r)
    ensures r.target == s.target + [s.target[s.layer]]
    ensures r.layer == |s.target| && r.element == s.element
  {
    State(s.target + [s.target[s.layer]], |s.target|, s.element)
  }

  /** Swap the selected layer with the one in front of it and follow it;
      nothing happens at the front. */
  function MoveLayerUp(s: State): (r: State)
    requires s.layer < |s.target|
    ensures Valid(s) ==> Valid(r)
    ensures |r.target| == |s.target| && r.layer < |r.target| && r.element == s.element
    ensures multiset(r.target) == multiset(s.target)
    ensures r.target[r.layer] == s.target[s.layer]
    ensures s.layer == 0 ==> r == s
    ensures s.layer > 0 ==> (r.layer == s.layer - 1
              && forall i :: 0 <= i < |s.target| && i != s.layer && i != s.layer - 1 ==>
                   r.target[i] == s.target[i])
  {
    if s.layer > 0 then
      var i := s.layer;
      State(s.target[i - 1 := s.target[i]][i := s.target[i - 1]], i - 1, s.element)
    else s
  }

  /** Swap the selected layer with the one behind it and follow it;
      nothing happens at the back. */
  function MoveLayerDown(s: State): (r: State)
    requires s.layer < |s.target|
    ensures Valid(s) ==> Valid(r)
    ensures |r.target| == |s.target| && r.layer < |r.target| && r.element == s.element
    ensures multiset(r.target) == multiset(s.target)
    ensures r.target[r.layer] == s.target[s.layer]
    ensures s.layer == |s.target| - 1 ==> r == s
    ensures s.layer < |s.target| - 1 ==> (r.layer == s.layer + 1
              && forall i :: 0 <= i < |s.target| && i != s.layer && i != s.layer + 1 ==>
                   r.target[i] == s.target[i])
  {
    if s.layer < |s.target| - 1 then
      var i := s.layer;
      State(s.target[i + 1 := s.target[i]][i := s.target[i + 1]], i + 1, s.element)
    else s
  }

  /** Moving a layer up and then down again restores the editor. */
  lemma MoveUpThenDown(s: State)
    requires 0 < s.layer < |s.target|
    ensures MoveLayerDown(MoveLayerUp(s)) == s
  {
    var u := MoveLayerUp(s);
    assert u.layer < |u.target| - 1;
    assert MoveLayerDown(u).target == s.target;
  }

  /** Moving a layer down and then up again restores the editor. */
  lemma MoveDownThenUp(s: State)
    requires s.layer < |s.target| - 1
    ensures MoveLayerUp(MoveLayerDown(s)) == s
  {
    var d := MoveLayerDown(s);
    assert MoveLayerUp(d).target == s.target;
  }

  /** Removing a freshly added layer restores the layer stack. */
  lemma AddThenRemove(s: State)
    requires |s.target| > 0
    ensures RemoveLayer(AddLayer(s)).target == s.target
  {
    var a := AddLayer(s);
    assert a.target[..a.layer] == s.target;
  }

  // ---------------------------------------------------------- element list

  /** Append a default element to the selected layer. The element
      selection advances by one, which stays inside the grown list. */
  function AddElement(s: State): (r: State)
    requires s.layer < |s.target|
    ensures Valid(s) ==> Valid(r)
    ensures |r.target| == |s.target| && r.layer == s.layer && r.element == s.element + 1
    ensures r.target[s.layer].elements == s.target[s.layer].elements + [NewElement()]
    ensures forall i :: 0 <= i < |s.target| && i != s.layer ==> r.target[i] == s.target[i]
  {
    var l := s.target[s.layer];
    State(s.target[s.layer := l.(elements := l.elements + [NewElement()])], s.layer, s.element + 1)
  }

  /** Delete the element picked in the list box from the selected layer,
      unless it is the layer's only element; the element selection moves
      up by one, floored at 0. */
  function RemoveElement(s: State, picked: Option<nat>): (r: State)
    requires s.layer < |s.target|
    requires picked.Some? ==> picked.value < |s.target[s.layer].elements|
    ensures Valid(s) ==> Valid(r)
    ensures |r.target| == |s.target| && r.layer == s.layer
    ensures forall i :: 0 <= i < |s.target| && i != s.layer ==> r.target[i] == s.target[i]
    ensures picked.None? || |s.target[s.layer].elements| <= 1 ==> r == s
    ensures picked.Some? && |s.target[s.layer].elements| > 1 ==>
              var els := s.target[s.layer].elements;
              r.target[s.layer].elements == els[..picked.value] + els[picked.value + 1..]
              && r.element == (if s.element == 0 then 0 else s.element - 1)
  {
    var l := s.target[s.layer];
    if picked.Some? && |l.elements| > 1 then
      var k := picked.value;
      State(s.target[s.layer := l.(elements := l.elements[..k] + l.elements[k + 1..])],
            s.layer, if s.element == 0 then 0 else s.element - 1)
    else s
  }

  // ---------------------------------------------------------- selections

  /** Choosing a layer in the list box selects it; the element selection
      returns to 0 even when nothing was picked. */
  function SelectLayer(s: State, picked: Option<nat>): (r: State)
    requires picked.Some? ==> picked.value < |s.target|
    ensures Valid(s) ==> Valid(r)
    ensures r.target == s.target && r.element == 0
    ensures r.layer == (if picked.Some? then picked.value else s.layer)
  {
    State(s.target, if picked.Some? then picked.value else s.layer, 0)
  }

  /** Choosing an element in the list box selects it. */
  function SelectElement(s: State, picked: Option<nat>): (r: State)
    requires s.layer < |s.target|
    requires picked.Some? ==> picked.value < |s.target[s.layer].elements|
    ensures Valid(s) ==> Valid(r)
    ensures r.target == s.target && r.layer == s.layer
    ensures r.element == (if picked.Some? then picked.value else s.element)
  {
    if picked.Some? then s.(element := picked.value) else s
  }

  // --------------------------------------------------------------- edits

  /** A new areal density for the selected layer, accepted only while the
      layer list has a selection and the value parses and is positive. */
  function EditDensity(s: State, listSelected: bool, parsed: Option<real>): (r: State)
    requires s.layer < |s.target|
    ensures Valid(s) ==> Valid(r)
    ensures r.layer == s.layer && r.element == s.element && |r.target| == |s.target|
    ensures forall i :: 0 <= i < |s.target| && i != s.layer ==> r.target[i] == s.target[i]
    ensures r.target[s.layer].elements == s.target[s.layer].elements
    ensures r.target[s.layer].arealDensity ==
              if listSelected && parsed.Some? && parsed.value > 0.0 then parsed.value
              else s.target[s.layer].arealDensity
  {
    if listSelected && parsed.Some? && parsed.value > 0.0 then
      var l := s.target[s.layer];
      s.(target := s.target[s.layer := l.(arealDensity := parsed.value)])
    else s
  }

  /** Which entry box fired the edit, with its parsed contents. */
  datatype Entry = ZText(z: Option<int>) | PercentText(percent: Option<real>) | OtherEntry

  /** The value an edit proposes for an element, or the element itself when
      the entry is rejected. */
  function Edited(e: Element, entry: Entry): Element {
    match entry
    case ZText(z) => if z.Some? && 0 < z.value < ZBound then e.(z := z.value) else e
    case PercentText(p) =>
      if p.Some? && 0.0 <= p.value <= 100.0 then e.(percentAt := p.value) else e
    case OtherEntry => e
  }

  /** An edit of the selected element, accepted only while the element list
      has a selection, for 0 < Z < 119 and 0 <= percent <= 100. */
  function EditElement(s: State, listSelected: bool, entry: Entry): (r: State)
    requires s.layer < |s.target| && s.element < |s.target[s.layer].elements|
    ensures Valid(s) ==> Valid(r)
    ensures r.layer == s.layer && r.element == s.element && |r.target| == |s.target|
    ensures forall i :: 0 <= i < |s.target| && i != s.layer ==> r.target[i] == s.target[i]
    ensures !listSelected ==> r == s
    ensures var before := s.target[s.layer].elements;
            var after := r.target[s.layer].elements;
            |after| == |before|
            && r.target[s.layer].arealDensity == s.target[s.layer].arealDensity
            && forall j :: 0 <= j < |before| && j != s.element ==> after[j] == before[j]
  {
    if listSelected then
      var l := s.target[s.layer];
      var e := l.elements[s.element];
      s.(target := s.target[s.layer := l.(elements := l.elements[s.element := Edited(e, entry)])])
    else s
  }

  /** An accepted atomic number is stored exactly, and a rejected one
      leaves the element as it was. */
  lemma EditZ(s: State, z: Option<int>)
    requires s.layer < |s.target| && s.element < |s.target[s.layer].elements|
    ensures var e := s.target[s.layer].elements[s.element];
            var e' := EditElement(s, true, ZText(z)).target[s.layer].elements[s.element];
            if z.Some? && 0 < z.value < ZBound then e' == e.(z := z.value) else e' == e
  {
  }

  /** An accepted percentage is stored exactly, and a rejected one leaves
      the element as it was. */
  lemma EditPercent(s: State, p: Option<real>)
    requires s.layer < |s.target| && s.element < |s.target[s.layer].elements|
    ensures var e := s.target[s.layer].elements[s.element];
            var e' := EditElement(s, true, PercentText(p)).target[s.layer].elements[s.element];
            if p.Some? && 0.0 <= p.value <= 100.0 then e' == e.(percentAt := p.value) else e' == e
  {
  }

  /** Every target the editor can hand to the simulation has positive
      densities and admissible elements: an atomic number in 1..118 and a
      percentage between 0 and 100. */
  lemma ValidTargetUsable(s: State)
    requires Valid(s)
    ensures |s.target| > 0
    ensures forall i :: 0 <= i < |s.target| ==> s.target[i].arealDensity > 0.0
    ensures forall i, j :: 0 <= i < |s.target| && 0 <= j < |s.target[i].elements| ==>
              0 < s.target[i].elements[j].z < ZBound && 0.0 <= s.target[i].elements[j].percentAt <= 100.0
  {
    forall i, j | 0 <= i < |s.target| && 0 <= j < |s.target[i].elements|
      ensures 0 < s.target[i].elements[j].z < ZBound && 0.0 <= s.target[i].elements[j].percentAt <= 100.0
    {
      assert LayerOk(s.target[i]);
    }
  }
}
