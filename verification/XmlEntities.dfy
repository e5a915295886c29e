/** One pass of XML entity decoding (sections 4.1 and 4.6 of XML 1.0). */
module XmlEntities {
  import opened TextModel

  const AMPERSAND := 38
  const SEMICOLON := 59
  const HASH := 35

  /** An entity of `length` characters; `character` is None when the number names no XML character. */
  datatype Entity = Entity(length: nat, character: Option<int>)

  function Named(t: Text): Option<Entity> {
    if [AMPERSAND, 108, 116, SEMICOLON] <= t then Some(Entity(4, Some(60)))
    else if [AMPERSAND, 103, 116, SEMICOLON] <= t then Some(Entity(4, Some(62)))
    else if [AMPERSAND, 97, 109, 112, SEMICOLON] <= t then Some(Entity(5, Some(AMPERSAND)))
    else if [AMPERSAND, 113, 117, 111, 116, SEMICOLON] <= t then Some(Entity(6, Some(DOUBLE_QUOTE)))
    else if [AMPERSAND, 97, 112, 111, 115, SEMICOLON] <= t then Some(Entity(6, Some(SINGLE_QUOTE)))
    else None
  }

  predicate IsXmlCharacter(c: int) {
    c in {0x9, 0xA, 0xD} || 0x20 <= c <= 0xD7FF || 0xE000 <= c <= 0xFFFD || 0x10000 <= c <= 0x10FFFF
  }

  function DigitValue(c: int, base: int): Option<int> {
    if base == 10 && IsDigit(c) then Some(c - 48)
    else if base == 16 && IsHex(c) then Some(HexValue(c))
    else None
  }

  /** Digits from position k, then a semicolon; `seen` digits make up `value`, and at most `limit` are allowed. */
  function Number(t: Text, k: nat, base: int, seen: nat, limit: nat, value: int): (e: Option<Entity>)
    requires seen <= limit && k <= |t|
    ensures e.Some? ==> k < e.value.length <= |t|
    decreases limit - seen
  {
    if k == |t| then None
    else if t[k] == SEMICOLON && seen > 0 then
      Some(Entity(k + 1, if IsXmlCharacter(value) then Some(value) else None))
    else match DigitValue(t[k], base)
      case None => None
      case Some(d) =>
        if seen == limit then None else Number(t, k + 1, base, seen + 1, limit, value * base + d)
  }

  /** The entity the text starts with, if it starts with one. */
  function EntityAtStart(t: Text): (e: Option<Entity>)
    ensures e.Some? ==> 4 <= e.value.length <= |t| && t[0] == AMPERSAND
  {
    if Named(t).Some? then Named(t)
    else if |t| >= 3 && t[0] == AMPERSAND && t[1] == HASH then
      if t[2] == 120 || t[2] == 88 then Number(t, 3, 16, 0, 6, 0)
      else if IsDigit(t[2]) then Number(t, 3, 10, 1, 7, t[2] - 48)
      else None
    else None
  }

  /** Left to right, every entity gives way to its character; a number that names none stays as it is. */
  function DecodeXmlEntitiesOnce(t: Text): (decoded: Text)
    ensures |decoded| <= |t|
    decreases |t|
  {
    if t == [] then []
    else match EntityAtStart(t)
      case None => [t[0]] + DecodeXmlEntitiesOnce(t[1..])
      case Some(Entity(n, Some(c))) => [c] + DecodeXmlEntitiesOnce(t[n..])
      case Some(Entity(n, None)) => t[..n] + DecodeXmlEntitiesOnce(t[n..])
  }

  /** Decoding acts only where there is an ampersand, and any change shortens the text. */
  lemma {:induction false} XmlDecodingShortens(t: Text)
    ensures var decoded := DecodeXmlEntitiesOnce(t); decoded == t || (AMPERSAND in t && |decoded| < |t|)
    decreases |t|
  {
    if t != [] {
      match EntityAtStart(t)
      case None =>
        XmlDecodingShortens(t[1..]);
        assert t == [t[0]] + t[1..];
      case Some(Entity(n, Some(c))) =>
        assert t[0] == AMPERSAND;
      case Some(Entity(n, None)) =>
        assert t[0] == AMPERSAND;
        XmlDecodingShortens(t[n..]);
        assert t == t[..n] + t[n..];
    }
  }

  // ----- What a text stands for -----

  /** The five names of section 4.6 of XML 1.0. */
  datatype Name = Lt | Gt | Amp | Quot | Apos {
    function Spelling(): string {
      match this case Lt => "lt" case Gt => "gt" case Amp => "amp" case Quot => "quot" case Apos => "apos"
    }

    function Character(): char {
      match this case Lt => '<' case Gt => '>' case Amp => '&' case Quot => '"' case Apos => '\''
    }
  }

  /** A digit by its value; a letter may be a capital. */
  datatype Digit = Digit(value: nat, capital: bool) {
    function Print(): char
      requires value < 16
    {
      if value < 10 then '0' + value as char
      else if capital then 'A' + (value - 10) as char
      else 'a' + (value - 10) as char
    }
  }

  /** A character that stands for itself, or a reference to one by name, by decimal digits or by hexadecimal digits. */
  datatype Piece =
    | Plain(c: int)
    | ByName(name: Name)
    | Decimal(digits: seq<Digit>)
    | Hexadecimal(capitalX: bool, digits: seq<Digit>)
  {
    predicate Valid() {
      match this
      case Plain(_) => true
      case ByName(_) => true
      case Decimal(digits) => 1 <= |digits| <= 7 && forall i | 0 <= i < |digits| :: digits[i].value < 10
      case Hexadecimal(_, digits) => 1 <= |digits| <= 6 && forall i | 0 <= i < |digits| :: digits[i].value < 16
    }

    function Print(): Text
      requires Valid()
    {
      match this
      case Plain(c) => [c]
      case ByName(name) => CodePoints("&" + name.Spelling() + ";")
      case Decimal(digits) => CodePoints("&#") + PrintDigits(digits) + CodePoints(";")
      case Hexadecimal(capitalX, digits) =>
        CodePoints(if capitalX then "&#X" else "&#x") + PrintDigits(digits) + CodePoints(";")
    }

    /** What the piece stands for; a number that names no character stands for itself. */
    function Meaning(): Text
      requires Valid()
    {
      match this
      case Plain(c) => [c]
      case ByName(name) => [name.Character() as int]
      case Decimal(digits) => if IsChar(ValueOf(digits, 10)) then [ValueOf(digits, 10)] else Print()
      case Hexadecimal(_, digits) => if IsChar(ValueOf(digits, 16)) then [ValueOf(digits, 16)] else Print()
    }
  }

  function PrintDigits(digits: seq<Digit>): Text
    requires forall i | 0 <= i < |digits| :: digits[i].value < 16
  {
    if digits == [] then [] else [digits[0].Print() as int] + PrintDigits(digits[1..])
  }

  /** The number in positional notation. */
  function ValueOf(digits: seq<Digit>, base: nat): nat {
    if digits == [] then 0 else ValueOf(digits[..|digits| - 1], base) * base + digits[|digits| - 1].value
  }

  /** The characters of section 2.2 of XML 1.0: no control but tab and line ends, no surrogate, no noncharacter. */
  predicate IsChar(c: int) {
    && 0 <= c <= 0x10FFFF && !(0xD800 <= c <= 0xDFFF) && c != 0xFFFE && c != 0xFFFF
    && (c < 32 ==> c == '\t' as int || c == '\n' as int || c == '\r' as int)
  }

  function PrintAll(pieces: seq<Piece>): Text
    requires forall i | 0 <= i < |pieces| :: pieces[i].Valid()
  {
    if pieces == [] then [] else pieces[0].Print() + PrintAll(pieces[1..])
  }

  function MeaningAll(pieces: seq<Piece>): Text
    requires forall i | 0 <= i < |pieces| :: pieces[i].Valid()
  {
    if pieces == [] then [] else pieces[0].Meaning() + MeaningAll(pieces[1..])
  }

  /** The reference a text begins with. */
  ghost predicate BeginsWith(t: Text, r: Piece) { !r.Plain? && r.Valid() && r.Print() <= t }

  /** The pieces read their text: an ampersand is only plain where no reference begins. */
  ghost predicate IsReading(pieces: seq<Piece>) {
    && (forall i | 0 <= i < |pieces| :: pieces[i].Valid())
    && (pieces != [] ==>
          (pieces[0].Plain? ==> forall r :: !BeginsWith(PrintAll(pieces), r)) && IsReading(pieces[1..]))
  }

  // ----- Reading references -----

  /** The code points of every name of an entity. */
  lemma NamesSpelled(name: Name)
    ensures name.Lt? ==> ByName(name).Print() == [AMPERSAND, 108, 116, SEMICOLON]
    ensures name.Gt? ==> ByName(name).Print() == [AMPERSAND, 103, 116, SEMICOLON]
    ensures name.Amp? ==> ByName(name).Print() == [AMPERSAND, 97, 109, 112, SEMICOLON]
    ensures name.Quot? ==> ByName(name).Print() == [AMPERSAND, 113, 117, 111, 116, SEMICOLON]
    ensures name.Apos? ==> ByName(name).Print() == [AMPERSAND, 97, 112, 111, 115, SEMICOLON]
  {
    assert "&" + name.Spelling() + ";" == match name
      case Lt => "&lt;" case Gt => "&gt;" case Amp => "&amp;" case Quot => "&quot;" case Apos => "&apos;";
  }

  lemma NamedReadsNames(t: Text, name: Name)
    requires ByName(name).Print() <= t
    ensures Named(t) == Some(Entity(|ByName(name).Print()|, Some(name.Character() as int)))
  {
    NamesSpelled(name);
    assert t[1] == ByName(name).Print()[1] && t[2] == ByName(name).Print()[2];
  }

  lemma NamedReadsOnlyNames(t: Text) returns (name: Name)
    requires Named(t).Some?
    ensures ByName(name).Print() <= t
  {
    name := if [AMPERSAND, 108, 116, SEMICOLON] <= t then Lt
      else if [AMPERSAND, 103, 116, SEMICOLON] <= t then Gt
      else if [AMPERSAND, 97, 109, 112, SEMICOLON] <= t then Amp
      else if [AMPERSAND, 113, 117, 111, 116, SEMICOLON] <= t then Quot
      else Apos;
    NamesSpelled(name);
  }

  /** The digits are below the base, of which there are two. */
  predicate AreDigits(digits: seq<Digit>, base: nat) {
    (base == 10 || base == 16) && forall i | 0 <= i < |digits| :: digits[i].value < base
  }

  lemma DigitIsRead(d: Digit, base: nat)
    requires AreDigits([d], base)
    ensures [d][0].value < 16 && DigitValue(d.Print() as int, base) == Some(d.value) && d.Print() as int != SEMICOLON
  {
    assert [d][0] == d;
  }

  lemma ReadDigit(c: int, base: nat) returns (d: Digit)
    requires (base == 10 || base == 16) && DigitValue(c, base).Some?
    ensures d.value < base && d.Print() as int == c && DigitValue(c, base) == Some(d.value)
  {
    d := Digit(DigitValue(c, base).value, 65 <= c <= 70);
  }

  /** What Number makes of a number, given as its digits. */
  function NumberEntity(length: nat, digits: seq<Digit>, base: nat): Entity {
    Entity(length, if IsChar(ValueOf(digits, base)) then Some(ValueOf(digits, base)) else None)
  }

  /** Number reads printed digits up to their semicolon, after those in `done`. */
  lemma {:induction false} NumberReadsDigits(
      t: Text, k: nat, base: nat, done: seq<Digit>, digits: seq<Digit>, limit: nat)
    requires k <= |t| && AreDigits(done, base) && AreDigits(digits, base) && 1 <= |done| + |digits| <= limit
    requires PrintDigits(digits) + [SEMICOLON] <= t[k..]
    ensures Number(t, k, base, |done|, limit, ValueOf(done, base))
      == Some(NumberEntity(k + |PrintDigits(digits)| + 1, done + digits, base))
    decreases |digits|
  {
    var rest := t[k..];
    if digits == [] {
      assert t[k] == rest[0] == SEMICOLON;
      assert done + digits == done;
    } else {
      var d := digits[0];
      DigitIsRead(d, base);
      assert t[k] == rest[0] == d.Print() as int;
      assert t[k + 1..] == rest[1..];
      assert (done + [d])[..|done|] == done;
      assert (done + [d]) + digits[1..] == done + digits;
      NumberReadsDigits(t, k + 1, base, done + [d], digits[1..], limit);
    }
  }

  /** Number reads nothing but digits and a semicolon. */
  lemma {:induction false} NumberReadsOnlyDigits(t: Text, k: nat, base: nat, done: seq<Digit>, limit: nat)
    returns (digits: seq<Digit>)
    requires |done| <= limit && k <= |t| && AreDigits(done, base)
    requires Number(t, k, base, |done|, limit, ValueOf(done, base)).Some?
    ensures AreDigits(digits, base) && 1 <= |done| + |digits| <= limit && PrintDigits(digits) + [SEMICOLON] <= t[k..]
    decreases limit - |done|
  {
    var rest := t[k..];
    assert t[k] == rest[0];
    if t[k] == SEMICOLON && |done| > 0 {
      digits := [];
    } else {
      var d := ReadDigit(t[k], base);
      assert (done + [d])[..|done|] == done;
      var later := NumberReadsOnlyDigits(t, k + 1, base, done + [d], limit);
      digits := [d] + later;
      assert t[k + 1..] == rest[1..];
      assert digits[1..] == later;
      assert rest == [rest[0]] + rest[1..];
      assert PrintDigits(digits) + [SEMICOLON] == [t[k]] + (PrintDigits(later) + [SEMICOLON]);
    }
  }

  /** How a reference in digits begins. */
  lemma DigitsSpelled(digits: seq<Digit>, capitalX: bool)
    requires AreDigits(digits, 16)
    ensures CodePoints("&#") + PrintDigits(digits) + CodePoints(";")
      == [AMPERSAND, HASH] + (PrintDigits(digits) + [SEMICOLON])
    ensures CodePoints(if capitalX then "&#X" else "&#x") + PrintDigits(digits) + CodePoints(";")
      == [AMPERSAND, HASH, if capitalX then 88 else 120] + (PrintDigits(digits) + [SEMICOLON])
  {
  }

  /** What follows a prefix of a prefix. */
  lemma AfterPrefix(head: Text, tail: Text, t: Text)
    requires head + tail <= t
    ensures head <= t && tail <= t[|head|..]
  {
    assert t[..|head|] == (head + tail)[..|head|];
    assert t[|head|..][..|tail|] == (head + tail)[|head|..];
  }

  lemma DecimalIsRead(t: Text, digits: seq<Digit>)
    requires AreDigits(digits, 10) && 1 <= |digits| <= 7
    requires [AMPERSAND, HASH] + (PrintDigits(digits) + [SEMICOLON]) <= t
    ensures EntityAtStart(t) == Some(NumberEntity(|PrintDigits(digits)| + 3, digits, 10))
  {
    var first, rest := [digits[0]], digits[1..];
    DigitIsRead(digits[0], 10);
    AfterPrefix([AMPERSAND, HASH], PrintDigits(digits) + [SEMICOLON], t);
    assert PrintDigits(digits) + [SEMICOLON] == [digits[0].Print() as int] + (PrintDigits(rest) + [SEMICOLON]);
    AfterPrefix([digits[0].Print() as int], PrintDigits(rest) + [SEMICOLON], t[2..]);
    assert t[2..][1..] == t[3..];
    assert t[2] == t[2..][0] == digits[0].Print() as int;
    assert t[1] == HASH;
    assert first[..0] == [];
    assert ValueOf([], 10) == 0;
    assert first + rest == digits;
    NumberReadsDigits(t, 3, 10, first, rest, 7);
  }

  lemma HexadecimalBegins(t: Text)
    requires |t| >= 3 && t[0] == AMPERSAND && t[1] == HASH && (t[2] == 120 || t[2] == 88)
    ensures EntityAtStart(t) == Number(t, 3, 16, 0, 6, 0)
  {
  }

  lemma HexadecimalIsRead(t: Text, x: int, digits: seq<Digit>)
    requires AreDigits(digits, 16) && 1 <= |digits| <= 6 && (x == 120 || x == 88)
    requires |t| >= 3 && t[0] == AMPERSAND && t[1] == HASH && t[2] == x
    requires PrintDigits(digits) + [SEMICOLON] <= t[3..]
    ensures EntityAtStart(t) == Some(NumberEntity(|PrintDigits(digits)| + 4, digits, 16))
  {
    var none: seq<Digit> := [];
    assert none + digits == digits;
    NumberReadsDigits(t, 3, 16, none, digits, 6);
    HexadecimalBegins(t);
  }

  /** A reference at the start of a text is read, whole, as the character it stands for. */
  lemma ReferenceIsRead(t: Text, r: Piece)
    requires BeginsWith(t, r)
    ensures EntityAtStart(t).Some? && EntityAtStart(t).value.length == |r.Print()|
    ensures r.Meaning() == match EntityAtStart(t).value.character case Some(c) => [c] case None => r.Print()
  {
    match r
    case ByName(name) =>
      NamedReadsNames(t, name);
    case Decimal(digits) =>
      DigitsSpelled(digits, false);
      DecimalIsRead(t, digits);
    case Hexadecimal(capitalX, digits) =>
      DigitsSpelled(digits, capitalX);
      AfterPrefix([AMPERSAND, HASH, if capitalX then 88 else 120], PrintDigits(digits) + [SEMICOLON], t);
      HexadecimalIsRead(t, if capitalX then 88 else 120, digits);
  }

  lemma OnlyDecimalsAreRead(t: Text) returns (digits: seq<Digit>)
    requires |t| >= 3 && IsDigit(t[2]) && Number(t, 3, 10, 1, 7, t[2] - 48).Some?
    ensures AreDigits(digits, 10) && 1 <= |digits| <= 7 && PrintDigits(digits) + [SEMICOLON] <= t[2..]
  {
    var first := ReadDigit(t[2], 10);
    assert [first][..0] == [];
    var rest := NumberReadsOnlyDigits(t, 3, 10, [first], 7);
    digits := [first] + rest;
    assert digits[1..] == rest;
    assert t[2..] == [t[2]] + t[3..];
    assert PrintDigits(digits) + [SEMICOLON] == [t[2]] + (PrintDigits(rest) + [SEMICOLON]);
  }

  lemma Prepend(head: Text, tail: Text, t: Text)
    requires head <= t && tail <= t[|head|..]
    ensures head + tail <= t
  {
    assert t == head + t[|head|..];
  }

  /** What is read at the start of a text is a reference. */
  lemma OnlyReferencesAreRead(t: Text) returns (r: Piece)
    requires EntityAtStart(t).Some?
    ensures BeginsWith(t, r)
  {
    if Named(t).Some? {
      var name := NamedReadsOnlyNames(t);
      r := ByName(name);
    } else if t[2] == 120 || t[2] == 88 {
      var digits := NumberReadsOnlyDigits(t, 3, 16, [], 6);
      r := Hexadecimal(t[2] == 88, digits);
      DigitsSpelled(digits, t[2] == 88);
      Prepend([t[0], t[1], t[2]], PrintDigits(digits) + [SEMICOLON], t);
    } else {
      var digits := OnlyDecimalsAreRead(t);
      r := Decimal(digits);
      DigitsSpelled(digits, false);
      Prepend([t[0], t[1]], PrintDigits(digits) + [SEMICOLON], t);
    }
  }

  /** One pass replaces every piece of a reading by what it stands for, and reads no result again. */
  lemma {:induction false} DecodingGivesTheMeaning(pieces: seq<Piece>)
    requires IsReading(pieces)
    ensures DecodeXmlEntitiesOnce(PrintAll(pieces)) == MeaningAll(pieces)
  {
    if pieces != [] {
      var r, t, rest := pieces[0], PrintAll(pieces), PrintAll(pieces[1..]);
      DecodingGivesTheMeaning(pieces[1..]);
      assert t[..|r.Print()|] == r.Print() && t[|r.Print()|..] == rest;
      if r.Plain? {
        if EntityAtStart(t).Some? {
          var other := OnlyReferencesAreRead(t);
        }
      } else {
        ReferenceIsRead(t, r);
      }
    }
  }

  lemma NothingBegins(t: Text)
    requires EntityAtStart(t).None?
    ensures forall r :: !BeginsWith(t, r)
  {
    forall r ensures !BeginsWith(t, r) {
      if BeginsWith(t, r) {
        ReferenceIsRead(t, r);
      }
    }
  }

  lemma ReadingGrows(r: Piece, rest: seq<Piece>)
    requires r.Valid() && IsReading(rest)
    requires r.Plain? ==> forall other :: !BeginsWith(r.Print() + PrintAll(rest), other)
    ensures IsReading([r] + rest) && PrintAll([r] + rest) == r.Print() + PrintAll(rest)
  {
    assert ([r] + rest)[1..] == rest;
  }

  lemma FirstPiece(t: Text) returns (r: Piece)
    requires t != []
    ensures r.Valid() && r.Print() != [] && r.Print() <= t
    ensures r.Plain? ==> forall other :: !BeginsWith(t, other)
  {
    if EntityAtStart(t).Some? {
      r := OnlyReferencesAreRead(t);
      ReferenceIsRead(t, r);
    } else {
      r := Plain(t[0]);
      NothingBegins(t);
    }
  }

  /** Every text has a reading. */
  lemma {:induction false} EveryTextHasAReading(t: Text) returns (pieces: seq<Piece>)
    ensures IsReading(pieces) && PrintAll(pieces) == t
    decreases |t|
  {
    if t == [] {
      pieces := [];
    } else {
      var r := FirstPiece(t);
      var n := |r.Print()|;
      assert t == r.Print() + t[n..];
      var rest := EveryTextHasAReading(t[n..]);
      ReadingGrows(r, rest);
      pieces := [r] + rest;
    }
  }
}
