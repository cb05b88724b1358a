/** The key rule both dialogs apply in their value field. */
module Keys {

  /** `wx.WXK_RETURN`. */
  const ReturnKey: int := 13
  /** `wx.WXK_NUMPAD_ENTER`. */
  const NumpadEnterKey: int := 370

  /** The keys that trigger a save from the value field. */
  predicate IsEnterKey(keycode: int): (b: bool)
    ensures b <==> keycode in {ReturnKey, NumpadEnterKey}
  {
    keycode == ReturnKey || keycode == NumpadEnterKey
  }
}
