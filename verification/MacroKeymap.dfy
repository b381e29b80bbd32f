/** The US keyboard layout: which modifier bits and HID usage type each character
    or directive name, and the inverse reading a host with that layout makes. */
module MacroKeymap {
  import opened Errors

  datatype HidKey = HidKey(modifiers: bv8, usage: nat)

  const MOD_LEFT_CTRL: bv8 := 0x01
  const MOD_LEFT_SHIFT: bv8 := 0x02
  const MOD_LEFT_ALT: bv8 := 0x04
  const MOD_LEFT_GUI: bv8 := 0x08

  const KEY_ENTER := 0x28
  const KEY_TAB := 0x2b
  const KEY_LEFT_BRACE := 0x2f
  const KEY_RIGHT_BRACE := 0x30

  function Plain(usage: nat): Option<HidKey> { Some(HidKey(0, usage)) }

  function WithShift(usage: nat): Option<HidKey> { Some(HidKey(MOD_LEFT_SHIFT, usage)) }

  function Distance(from: char, to: char): nat
    requires from <= to
  {
    to as int - from as int
  }

  /** `macro_keymap_us_printable`. */
  function Printable(c: char): (key: Option<HidKey>) {
    if 'a' <= c <= 'z' then Plain(0x04 + Distance('a', c))
    else if 'A' <= c <= 'Z' then WithShift(0x04 + Distance('A', c))
    else if '1' <= c <= '9' then Plain(0x1e + Distance('1', c))
    else if c == '0' then Plain(0x27)
    else match c
      case ' ' => Plain(0x2c)
      case '-' => Plain(0x2d)
      case '_' => WithShift(0x2d)
      case '=' => Plain(0x2e)
      case '+' => WithShift(0x2e)
      case '[' => Plain(KEY_LEFT_BRACE)
      case '{' => WithShift(KEY_LEFT_BRACE)
      case ']' => Plain(KEY_RIGHT_BRACE)
      case '}' => WithShift(KEY_RIGHT_BRACE)
      case '\\' => Plain(0x31)
      case '|' => WithShift(0x31)
      case ';' => Plain(0x33)
      case ':' => WithShift(0x33)
      case '\'' => Plain(0x34)
      case '"' => WithShift(0x34)
      case '`' => Plain(0x35)
      case '~' => WithShift(0x35)
      case ',' => Plain(0x36)
      case '<' => WithShift(0x36)
      case '.' => Plain(0x37)
      case '>' => WithShift(0x37)
      case '/' => Plain(0x38)
      case '?' => WithShift(0x38)
      case '!' => WithShift(0x1e)
      case '@' => WithShift(0x1f)
      case '#' => WithShift(0x20)
      case '$' => WithShift(0x21)
      case '%' => WithShift(0x22)
      case '^' => WithShift(0x23)
      case '&' => WithShift(0x24)
      case '*' => WithShift(0x25)
      case '(' => WithShift(0x26)
      case ')' => WithShift(0x27)
      case _ => None
  }

  /** `macro_keymap_us_named`: a table search, then single printable characters. */
  function Named(name: string): Option<HidKey> {
    match NamedUsage(name)
    case Some(usage) => Plain(usage)
    case None => if |name| == 1 then Printable(name[0]) else None
  }

  function NamedUsage(name: string): Option<nat> {
    if name == "ENTER" then Some(KEY_ENTER)
    else if name == "TAB" then Some(KEY_TAB)
    else if name == "ESC" then Some(0x29)
    else if name == "BACKSPACE" then Some(0x2a)
    else if name == "DELETE" then Some(0x4c)
    else if name == "INSERT" then Some(0x49)
    else if name == "HOME" then Some(0x4a)
    else if name == "END" then Some(0x4d)
    else if name == "PAGEUP" then Some(0x4b)
    else if name == "PAGEDOWN" then Some(0x4e)
    else if name == "UP" then Some(0x52)
    else if name == "DOWN" then Some(0x51)
    else if name == "LEFT" then Some(0x50)
    else if name == "RIGHT" then Some(0x4f)
    else if name == "SPACE" then Some(0x2c)
    else FunctionKeyUsage(name)
  }

  function FunctionKeyUsage(name: string): Option<nat> {
    if name == "F1" then Some(0x3a)
    else if name == "F2" then Some(0x3b)
    else if name == "F3" then Some(0x3c)
    else if name == "F4" then Some(0x3d)
    else if name == "F5" then Some(0x3e)
    else if name == "F6" then Some(0x3f)
    else if name == "F7" then Some(0x40)
    else if name == "F8" then Some(0x41)
    else if name == "F9" then Some(0x42)
    else if name == "F10" then Some(0x43)
    else if name == "F11" then Some(0x44)
    else if name == "F12" then Some(0x45)
    else None
  }

  function ModifierBit(name: string): Option<bv8> {
    if name == "CTRL" then Some(MOD_LEFT_CTRL)
    else if name == "SHIFT" then Some(MOD_LEFT_SHIFT)
    else if name == "ALT" then Some(MOD_LEFT_ALT)
    else if name == "GUI" then Some(MOD_LEFT_GUI)
    else None
  }

  predicate UppercaseDecimal(name: string) {
    name != "" && forall i :: 0 <= i < |name| ==> 'A' <= name[i] <= 'Z' || '0' <= name[i] <= '9'
  }

  /** `macro_keymap_us_v2_named_directive`; usage 0 stands for a bare modifier. */
  function NamedDirective(name: string): Option<HidKey> {
    match ModifierBit(name)
    case Some(bit) => Some(HidKey(bit, 0))
    case None => if |name| > 1 && UppercaseDecimal(name) then Named(name) else None
  }

  // ---- The keys that exist, and how to type each one ----

  predicate IsUsage(u: nat) {
    0x04 <= u <= 0x31 || 0x33 <= u <= 0x38 || 0x3a <= u <= 0x45 || 0x49 <= u <= 0x52
  }

  /** The usages that type a second character under SHIFT. */
  predicate IsShiftable(u: nat) {
    0x04 <= u <= 0x27 || 0x2d <= u <= 0x31 || 0x33 <= u <= 0x38
  }

  predicate IsModifierBit(m: bv8) {
    m == MOD_LEFT_CTRL || m == MOD_LEFT_SHIFT || m == MOD_LEFT_ALT || m == MOD_LEFT_GUI
  }

  function UnshiftedChar(u: nat): Option<char> {
    if 0x04 <= u <= 0x1d then Some(('a' as int + u - 0x04) as char)
    else if 0x1e <= u <= 0x26 then Some(('1' as int + u - 0x1e) as char)
    else if u == 0x27 then Some('0')
    else if u == KEY_ENTER then Some('\n')
    else if u == KEY_TAB then Some('\t')
    else if u == 0x2c then Some(' ')
    else if u == 0x2d then Some('-')
    else if u == 0x2e then Some('=')
    else if u == KEY_LEFT_BRACE then Some('[')
    else if u == KEY_RIGHT_BRACE then Some(']')
    else if u == 0x31 then Some('\\')
    else if u == 0x33 then Some(';')
    else if u == 0x34 then Some('\'')
    else if u == 0x35 then Some('`')
    else if u == 0x36 then Some(',')
    else if u == 0x37 then Some('.')
    else if u == 0x38 then Some('/')
    else None
  }

  function ShiftedChar(u: nat): (c: Option<char>)
    ensures IsShiftable(u) ==> c.Some?
  {
    if 0x04 <= u <= 0x1d then Some(('A' as int + u - 0x04) as char)
    else if 0x1e <= u <= 0x27 then Some("!@#$%^&*()"[u - 0x1e])
    else if u == 0x2d then Some('_')
    else if u == 0x2e then Some('+')
    else if u == KEY_LEFT_BRACE then Some('{')
    else if u == KEY_RIGHT_BRACE then Some('}')
    else if u == 0x31 then Some('|')
    else if u == 0x33 then Some(':')
    else if u == 0x34 then Some('"')
    else if u == 0x35 then Some('~')
    else if u == 0x36 then Some('<')
    else if u == 0x37 then Some('>')
    else if u == 0x38 then Some('?')
    else None
  }

  /** The character a US-layout host reads from one key. */
  function KeyChar(key: HidKey): Option<char> {
    if key.modifiers == 0 then UnshiftedChar(key.usage)
    else if key.modifiers == MOD_LEFT_SHIFT then ShiftedChar(key.usage)
    else None
  }

  /** The directive name of a key that types no character. */
  function NameOf(u: nat): string
    requires IsUsage(u) && UnshiftedChar(u) == None
  {
    if u == 0x29 then "ESC"
    else if u == 0x2a then "BACKSPACE"
    else if 0x3a <= u <= 0x45 then FunctionKeyName(u)
    else if u == 0x49 then "INSERT"
    else if u == 0x4a then "HOME"
    else if u == 0x4b then "PAGEUP"
    else if u == 0x4c then "DELETE"
    else if u == 0x4d then "END"
    else if u == 0x4e then "PAGEDOWN"
    else if u == 0x4f then "RIGHT"
    else if u == 0x50 then "LEFT"
    else if u == 0x51 then "DOWN"
    else "UP"
  }

  function FunctionKeyName(u: nat): string
    requires 0x3a <= u <= 0x45
  {
    if u == 0x3a then "F1"
    else if u == 0x3b then "F2"
    else if u == 0x3c then "F3"
    else if u == 0x3d then "F4"
    else if u == 0x3e then "F5"
    else if u == 0x3f then "F6"
    else if u == 0x40 then "F7"
    else if u == 0x41 then "F8"
    else if u == 0x42 then "F9"
    else if u == 0x43 then "F10"
    else if u == 0x44 then "F11"
    else "F12"
  }

  function ModifierName(m: bv8): string
    requires IsModifierBit(m)
  {
    if m == MOD_LEFT_CTRL then "CTRL"
    else if m == MOD_LEFT_SHIFT then "SHIFT"
    else if m == MOD_LEFT_ALT then "ALT"
    else "GUI"
  }

  // ---- Inverses ----

  /** Typing a printable character and reading it back returns the character. */
  lemma PrintableReads(c: char)
    ensures ' ' <= c <= '~' <==> Printable(c).Some?
    ensures Printable(c).Some? ==>
      && KeyChar(Printable(c).value) == Some(c)
      && IsUsage(Printable(c).value.usage)
      && Printable(c).value.modifiers in {0, MOD_LEFT_SHIFT}
      && (Printable(c).value.modifiers == MOD_LEFT_SHIFT ==> IsShiftable(Printable(c).value.usage))
  {}

  lemma UnshiftedTypes(u: nat)
    requires IsUsage(u) && UnshiftedChar(u).Some? && u != KEY_ENTER && u != KEY_TAB
    ensures Printable(UnshiftedChar(u).value) == Plain(u)
  {}

  lemma ShiftedTypes(u: nat)
    requires IsShiftable(u)
    ensures Printable(ShiftedChar(u).value) == WithShift(u)
  {}

  lemma FunctionKeyTypes(u: nat)
    requires 0x3a <= u <= 0x45
    ensures FunctionKeyUsage(FunctionKeyName(u)) == Some(u)
    ensures var n := FunctionKeyName(u); 2 <= |n| <= 3 && n[0] == 'F' && UppercaseDecimal(n)
  {}

  lemma NameTypes(u: nat)
    requires IsUsage(u) && UnshiftedChar(u) == None
    ensures NamedDirective(NameOf(u)) == Plain(u)
    ensures 1 < |NameOf(u)| < 10 && UppercaseDecimal(NameOf(u))
  {
    if 0x3a <= u <= 0x45 {
      FunctionKeyTypes(u);
      assert NamedUsage(NameOf(u)) == FunctionKeyUsage(NameOf(u));
    }
  }

  lemma ModifierTypes(m: bv8)
    requires IsModifierBit(m)
    ensures NamedDirective(ModifierName(m)) == Some(HidKey(m, 0))
    ensures 1 < |ModifierName(m)| < 10 && UppercaseDecimal(ModifierName(m))
  {}

  /** A directive names a bare modifier or an existing unshifted key other than `[`. */
  lemma DirectiveShape(name: string)
    requires NamedDirective(name).Some?
    ensures var key := NamedDirective(name).value;
      || (IsModifierBit(key.modifiers) && key.usage == 0)
      || (key.modifiers == 0 && IsUsage(key.usage)
          && key.usage != KEY_LEFT_BRACE && key.usage != KEY_RIGHT_BRACE)
  {}
}
