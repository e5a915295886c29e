/** Text as the Python source sees it: a sequence of code points (surrogates included). */
module TextModel {
  type Text = seq<int>

  const BACKSLASH := 92
  const DOUBLE_QUOTE := 34
  const SINGLE_QUOTE := 39
  const SLASH := 47
  const LOWER_U := 117

  function CodePoints(s: string): Text { seq(|s|, i requires 0 <= i < |s| => s[i] as int) }

  datatype Option<+T> = None | Some(value: T)

  lemma MarksSpelled()
    ensures BACKSLASH == '\\' as int && SLASH == '/' as int && LOWER_U == 'u' as int
    ensures DOUBLE_QUOTE == '"' as int && SINGLE_QUOTE == '\'' as int
    ensures forall c :: IsDigit(c) <==> c in CodePoints("0123456789")
  {
    assert CodePoints("0123456789") == [48, 49, 50, 51, 52, 53, 54, 55, 56, 57];
  }

  predicate IsDigit(c: int) { 48 <= c <= 57 }

  predicate IsHex(c: int) { IsDigit(c) || 65 <= c <= 70 || 97 <= c <= 102 }

  function HexValue(c: int): (v: int)
    requires IsHex(c)
    ensures 0 <= v < 16
  {
    if IsDigit(c) then c - 48 else if c <= 70 then c - 55 else c - 87
  }

  /** The white space that Python's `str.strip` and `str.isspace` recognise. */
  predicate IsSpace(c: int) {
    9 <= c <= 13 || 28 <= c <= 32 || c == 0x85 || c == 0xA0 || c == 0x1680 || 0x2000 <= c <= 0x200A
    || c == 0x2028 || c == 0x2029 || c == 0x202F || c == 0x205F || c == 0x3000
  }

  predicate IsBlank(t: Text) { forall i | 0 <= i < |t| :: IsSpace(t[i]) }

  /** Python's `str.strip` without arguments. */
  function Strip(t: Text): (r: Text)
    ensures |r| <= |t| && (r == [] <==> IsBlank(t))
    decreases |t|
  {
    if t == [] then []
    else if IsSpace(t[0]) then Strip(t[1..])
    else if IsSpace(t[|t| - 1]) then Strip(t[..|t| - 1])
    else t
  }

  /** Stripping leaves what stands between the white space at both ends. */
  lemma {:induction false} StripDropsBlanks(before: Text, core: Text, after: Text)
    requires IsBlank(before) && IsBlank(after)
    requires core != [] ==> !IsSpace(core[0]) && !IsSpace(core[|core| - 1])
    ensures Strip(before + core + after) == core
    decreases |before| + |after|
  {
    var t := before + core + after;
    if before != [] {
      StripDropsBlanks(before[1..], core, after);
      assert t[1..] == before[1..] + core + after;
    } else if after != [] {
      if core == [] {
        StripDropsBlanks([], [], after[1..]);
        assert t[1..] == [] + [] + after[1..];
      } else {
        StripDropsBlanks([], core, after[..|after| - 1]);
        assert t[..|t| - 1] == [] + core + after[..|after| - 1];
      }
    } else {
      assert t == core;
    }
  }
}
