/** Control descriptors as a v4l device reports them, the operator's edit of one
    control in one frame, and what the widget for each control type does to the
    cached value. */
module Controls {

  datatype Option<T> = None | Some(value: T)

  /** The signed 64-bit integer the cache holds for every control. */
  type I64 = x: int | -0x8000_0000_0000_0000 <= x < 0x8000_0000_0000_0000

  /** The unsigned 32-bit integer v4l uses for control ids and menu indices. */
  type U32 = x: int | 0 <= x < 0x1_0000_0000

  /** Path of a capture device node. */
  type Path = string

  /** The control types the panel distinguishes; every other type the device may
      report (buttons, 64-bit integers, strings, bitmasks, integer menus, ...) is
      `Other`, carrying its raw type code. */
  datatype CtrlType = Integer | Boolean | Menu | CtrlClass | Other(code: nat)

  /** One control descriptor. `items` lists the (index, label) pairs of a menu. */
  datatype Description = Description(
    id: U32,
    name: string,
    typ: CtrlType,
    minimum: I64,
    maximum: I64,
    default: I64,
    items: Option<seq<(U32, string)>>)

  /** What the operator did to one control's widget in one frame: dragged the
      slider to a value, clicked the checkbox, or clicked the radio button at a
      position of the menu's item list. An edit that does not fit the widget the
      control's type shows never happens and is read as no interaction. */
  datatype Edit = Slide(value: I64) | Toggle | Pick(position: nat)

  /** A write the panel sends to the device: the control id and the new value,
      always as an integer value. */
  datatype Write = Write(id: U32, value: I64)

  /** The checkbox of a Boolean control: it shows "checked" exactly when the
      cached value is 0, the click flips it, and the value stored back is 0 when
      checked and 1 otherwise. */
  function BoolEdit(v: I64, toggled: bool): (r: I64)
    ensures r == 0 || r == 1
    ensures !toggled ==> r == (if v == 0 then 0 else 1)
    ensures toggled && (v == 0 || v == 1) ==> r == 1 - v
    ensures toggled && v != 0 ==> r == 0
  {
    var checked := v == 0;
    var checkedAfter := if toggled then !checked else checked;
    if checkedAfter then 0 else 1
  }

  /** The cached value of control `c` after its widget has been shown with the
      operator's edit `e` (if any). */
  function EditedValue(c: Description, v: I64, e: Option<Edit>): (r: I64)
    ensures c.typ == Integer ==> r == (if e.Some? && e.value.Slide? then e.value.value else v)
    ensures c.typ == Boolean ==> r == 0 || r == 1
    ensures c.typ == Boolean ==> (r == 0 <==> (v == 0) != (e == Some(Toggle)))
    ensures c.typ == Menu && r != v ==>
      c.items.Some? && exists k :: 0 <= k < |c.items.value| && r == c.items.value[k].0
    ensures c.typ == Menu && e.Some? && e.value.Pick? && c.items.Some? && e.value.position < |c.items.value| ==>
      r == c.items.value[e.value.position].0
    ensures c.typ == Menu && !(e.Some? && e.value.Pick?) ==> r == v
    ensures c.typ == CtrlClass || c.typ.Other? ==> r == v
    ensures e.None? && c.typ != Boolean ==> r == v
  {
    match c.typ
    case Integer =>
      if e.Some? && e.value.Slide? then e.value.value else v
    case Boolean =>
      BoolEdit(v, e == Some(Toggle))
    case Menu =>
      if e.Some? && e.value.Pick? && c.items.Some? && e.value.position < |c.items.value|
      then c.items.value[e.value.position].0
      else v
    case _ =>
      v
  }

  /** The write rule of the apply pass: a class header is never written; any
      other control is written when its value changed in this frame or the
      operator asked to force the apply. */
  predicate WriteDue(c: Description, before: I64, after: I64, force: bool)
  {
    c.typ != CtrlClass && (after != before || force)
  }
}
