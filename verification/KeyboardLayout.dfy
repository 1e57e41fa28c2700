/** The tables that scancodes.c fills in: every printable key, the function keys of the terminals, and
    the releases; they have what the driver relies on. */
module KeyboardLayout {
  import opened Bytes
  import opened Keyboard

  const DIGITS := "1234567890-="
  const TOP_ROW := "qwertyuiop"
  const HOME_ROW := "asdfghjkl"
  const BOTTOM_ROW := "zxcvbnm"

  function Letter(c: char): Code {
    Code(c as int % 256, true, true, true)
  }

  function Printable(c: char): Code {
    Code(c as int % 256, true, true, false)
  }

  function Silent(result: Byte): Code {
    Code(result, true, false, false)
  }

  /** The entry of a key when it is pressed. */
  function Pressed(raw: Byte): Code {
    if 0x02 <= raw <= 0x0D then Printable(DIGITS[raw - 0x02])
    else if 0x10 <= raw <= 0x19 then Letter(TOP_ROW[raw - 0x10])
    else if 0x1E <= raw <= 0x26 then Letter(HOME_ROW[raw - 0x1E])
    else if 0x2C <= raw <= 0x32 then Letter(BOTTOM_ROW[raw - 0x2C])
    else if raw == 0x1A then Printable('[')
    else if raw == 0x1B then Printable(']')
    else if raw == 0x1C then Printable('\n')
    else if raw == 0x27 then Printable(';')
    else if raw == 0x28 then Printable('\'')
    else if raw == 0x29 then Printable('`')
    else if raw == 0x2B then Printable('\\')
    else if raw == 0x33 then Printable(',')
    else if raw == 0x34 then Printable('.')
    else if raw == 0x35 then Printable('/')
    else if raw == 0x39 then Printable(' ')
    else if raw == 0x3B then Silent(14)
    else if raw == 0x3C then Silent(16)
    else if raw == 0x3D then Silent(18)
    else Silent(0)
  }

  /** Releases are break entries with the flags of their key; the one of Tab alone is printable where
      its key is not. Codes without an entry read as a pressed key that prints nothing. */
  function EntryOf(raw: Byte): Code {
    if raw == 0x8F then Code(9, false, true, false)
    else if 0x81 <= raw <= 0xD8 && raw != 0xA9 && !(0xD4 <= raw <= 0xD6) then Pressed(raw - 0x80).(make := false)
    else Pressed(raw)
  }

  function ShiftOf(c: Byte): Byte {
    if c == '1' as int then '!' as int
    else if c == '2' as int then '@' as int
    else if c == '3' as int then '#' as int
    else if c == '4' as int then '$' as int
    else if c == '5' as int then '%' as int
    else if c == '6' as int then '^' as int
    else if c == '7' as int then '&' as int
    else if c == '8' as int then '*' as int
    else if c == '9' as int then '(' as int
    else if c == '0' as int then ')' as int
    else if c == '-' as int then '_' as int
    else if c == '=' as int then '+' as int
    else if c == '[' as int then '{' as int
    else if c == ']' as int then '}' as int
    else if c == '\\' as int then '|' as int
    else if c == '\'' as int then '"' as int
    else if c == ';' as int then ':' as int
    else if c == ',' as int then '<' as int
    else if c == '.' as int then '>' as int
    else if c == '/' as int then '?' as int
    else if c == '`' as int then '~' as int
    else 0
  }

  function Layout(): (tb: Tables)
    ensures |tb.codes| == 256 && |tb.shifted| == 256
  {
    Tables(seq(256, r requires 0 <= r < 256 => EntryOf(r)), seq(256, c requires 0 <= c < 256 => ShiftOf(c)))
  }

  /** The keys' table meets what the driver relies on, although the release of Tab is marked printable
      and is no character that could be typed. */
  lemma LayoutOk()
    ensures TablesOk(Layout())
    ensures Layout().codes[0x8F] == Code(9, false, true, false)
    ensures !CodeOk(Layout().codes[0x8F], Layout().shifted)
  {
    var tb := Layout();
    forall r | 0 <= r < 256 && tb.codes[r].make
      ensures CodeOk(tb.codes[r], tb.shifted)
    {
      EntryIsOk(r);
    }
  }

  lemma EntryIsOk(raw: Byte)
    requires EntryOf(raw).make
    ensures CodeOk(EntryOf(raw), Layout().shifted)
  {
    assert EntryOf(raw) == Pressed(raw);
    if 0x02 <= raw <= 0x0D {
      DigitsOk(raw - 0x02);
    } else if 0x10 <= raw <= 0x19 {
      TopRowOk(raw - 0x10);
    } else if 0x1E <= raw <= 0x26 {
      HomeRowOk(raw - 0x1E);
    } else if 0x2C <= raw <= 0x32 {
      BottomRowOk(raw - 0x2C);
    }
  }

  lemma DigitsOk(i: nat)
    requires i < |DIGITS|
    ensures CodeOk(Printable(DIGITS[i]), Layout().shifted)
  {
    assert ' ' <= DIGITS[i] <= '=';
  }

  lemma LetterOk(c: char)
    requires 'a' <= c <= 'z'
    ensures CodeOk(Letter(c), Layout().shifted)
  {
  }

  lemma TopRowOk(i: nat)
    requires i < |TOP_ROW|
    ensures CodeOk(Letter(TOP_ROW[i]), Layout().shifted)
  {
    assert 'a' <= TOP_ROW[i] <= 'z';
    LetterOk(TOP_ROW[i]);
  }

  lemma HomeRowOk(i: nat)
    requires i < |HOME_ROW|
    ensures CodeOk(Letter(HOME_ROW[i]), Layout().shifted)
  {
    assert 'a' <= HOME_ROW[i] <= 'z';
    LetterOk(HOME_ROW[i]);
  }

  lemma BottomRowOk(i: nat)
    requires i < |BOTTOM_ROW|
    ensures CodeOk(Letter(BOTTOM_ROW[i]), Layout().shifted)
  {
    assert 'a' <= BOTTOM_ROW[i] <= 'z';
    LetterOk(BOTTOM_ROW[i]);
  }

  /** On this keyboard, then, a read that asks for fewer than 127 bytes returns more for some typing. */
  lemma ReadSizeOnLayout(nbytes: int)
    ensures (forall h: seq<Event>, t: nat | t < TERMINALS && Enabled(After(Layout(), h), Take(t)) ::
               |Taken(After(Layout(), h).lines[t])| <= nbytes)
            <==> nbytes >= BUFFER_SIZE - 1
  {
    LayoutOk();
    assert Layout().codes[0x1E] == Letter('a') by { assert HOME_ROW[0] == 'a'; }
    assert Layout().codes[0x1C] == Printable('\n');
    ReadSizeExact(Layout(), 0x1E, 0x1C, nbytes);
  }
}
