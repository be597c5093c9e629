/** UTF-8 by its own rules (section 3 of RFC 3629): what a byte string decodes to. */
module Utf8 {
  import opened Common

  /** The number of bytes of a character that begins with this one; 0 if none does. */
  function Width(lead: char): nat {
    if lead < '\U{80}' then 1
    else if '\U{C0}' <= lead < '\U{E0}' then 2
    else if '\U{E0}' <= lead < '\U{F0}' then 3
    else if '\U{F0}' <= lead < '\U{F8}' then 4
    else 0
  }

  predicate Continues(c: char) { '\U{80}' <= c < '\U{C0}' }

  /** The six low bits of a continuation byte. */
  function Low(c: char): nat { c as int % 64 }

  /** The first character: its code point and how many bytes it takes, in the shortest form only. */
  function First(s: string): Option<(nat, nat)> {
    if s == "" then None
    else
      var n := Width(s[0]);
      if n == 0 || |s| < n || (exists k :: 1 <= k < n && !Continues(s[k])) then None
      else if n == 1 then Some((s[0] as int, 1))
      else if n == 2 then
        var c := (s[0] as int - 0xC0) * 64 + Low(s[1]);
        if c < 0x80 then None else Some((c, 2))
      else if n == 3 then
        var c := (s[0] as int - 0xE0) * 4096 + Low(s[1]) * 64 + Low(s[2]);
        if c < 0x800 then None else Some((c, 3))
      else
        var c := (s[0] as int - 0xF0) * 0x4_0000 + Low(s[1]) * 4096 + Low(s[2]) * 64 + Low(s[3]);
        if c < 0x1_0000 then None else Some((c, 4))
  }

  /** All characters of a byte string, if it is made of whole ones. */
  function Decode(s: string): Option<seq<nat>>
    decreases |s|
  {
    if s == "" then Some([])
    else
      var f := First(s);
      if f.None? || f.value.1 == 0 || f.value.1 > |s| then None
      else
        var rest := Decode(s[f.value.1..]);
        if rest.None? then None else Some([f.value.0] + rest.value)
  }
}
