/** Shared by the storage and the control-plane models. */
module Prelude {
  datatype Option<+T> = None | Some(value: T)

  /** Lower-casing of ASCII text. */
  function ToLower(s: string): (t: string)
    ensures |t| == |s|
  {
    seq(|s|, i requires 0 <= i < |s| => if 'A' <= s[i] <= 'Z' then s[i] + 32 as char else s[i])
  }
}
