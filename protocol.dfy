/** The bot's wire vocabulary: entity and item codes read from the match
    driver, and the command line written back for each robot. */
module Protocol {
  import opened Wrappers
  import opened FixedWidth
  import opened Geometry

  /** Kinds of entity the driver reports. The source's extra `None` kind is
      only a default value that decoding never produces. */
  datatype EntityType = MyRobot | TheirRobot | Radar | Trap

  datatype ItemType = None | Radar | Trap | Ore

  datatype ActionType = None | Wait | Move | Dig | Request

  /** A command: its type, an optional target cell and an optional item. */
  datatype Action = Action(kind: ActionType, p: Option<Position>, item: Option<ItemType>)

  // ---------------------------------------------------------------------
  // Integer codes

  /** The code the driver uses for each entity kind. */
  function EntityTypeCode(t: EntityType): U32
  {
    match t
    case MyRobot => 0
    case TheirRobot => 1
    case Radar => 2
    case Trap => 3
  }

  /** The code the driver uses for each item kind. */
  function ItemTypeCode(t: ItemType): S32
  {
    match t
    case None => -1
    case Radar => 2
    case Trap => 3
    case Ore => 4
  }

  /** `readEntityType`: decodes the four listed codes and throws on any other. */
  function ReadEntityType(code: U32): (r: Result<EntityType>)
    ensures r.Ok? <==> code <= 3
    ensures r.Err? ==> r.message == "Not a valid unit type."
  {
    match code
    case 0 => Ok(EntityType.MyRobot)
    case 1 => Ok(EntityType.TheirRobot)
    case 2 => Ok(EntityType.Radar)
    case 3 => Ok(EntityType.Trap)
    case _ => Err("Not a valid unit type.")
  }

  /** `readItemType`: decodes -1, 2, 3 and 4 and throws on any other code. */
  function ReadItemType(code: S32): (r: Result<ItemType>)
    ensures r.Ok? <==> code == -1 || 2 <= code <= 4
    ensures r.Err? ==> r.message == "Not a valid item type."
  {
    match code
    case -1 => Ok(ItemType.None)
    case 2 => Ok(ItemType.Radar)
    case 3 => Ok(ItemType.Trap)
    case 4 => Ok(ItemType.Ore)
    case _ => Err("Not a valid item type.")
  }

  /** The entity decoder is the exact inverse of the driver's code table. */
  lemma EntityTypeCodeRoundTrip(t: EntityType, code: U32)
    ensures ReadEntityType(EntityTypeCode(t)) == Ok(t)
    ensures ReadEntityType(code) == Ok(t) ==> EntityTypeCode(t) == code
  {
  }

  /** The item decoder is the exact inverse of the driver's code table. */
  lemma ItemTypeCodeRoundTrip(t: ItemType, code: S32)
    ensures ReadItemType(ItemTypeCode(t)) == Ok(t)
    ensures ReadItemType(code) == Ok(t) ==> ItemTypeCode(t) == code
  {
  }

  // ---------------------------------------------------------------------
  // Words and numbers in a command line

  /** `itemTypeToString`. */
  function ItemTypeToString(t: ItemType): string
  {
    match t
    case None => "NONE"
    case Radar => "RADAR"
    case Trap => "TRAP"
    case Ore => "ORE"
  }

  /** `actionTypeToString`. */
  function ActionTypeToString(t: ActionType): string
  {
    match t
    case None => "NONE"
    case Wait => "WAIT"
    case Move => "MOVE"
    case Dig => "DIG"
    case Request => "REQUEST"
  }

  predicate IsDigit(c: char) { '0' <= c <= '9' }

  predicate IsWord(s: string) { |s| > 0 && ' ' !in s }

  function DigitChar(d: nat): (c: char)
    requires d < 10
    ensures IsDigit(c)
  {
    ('0' as int + d) as char
  }

  /** The decimal text of `n`, as `operator<<` writes an unsigned integer. */
  function Decimal(n: nat): (s: string)
    ensures |s| > 0
    ensures forall i :: 0 <= i < |s| ==> IsDigit(s[i])
  {
    if n < 10 then [DigitChar(n)] else Decimal(n / 10) + [DigitChar(n % 10)]
  }

  /** The value of a string of decimal digits. */
  function DigitsValue(s: string): nat
    requires forall i :: 0 <= i < |s| ==> IsDigit(s[i])
  {
    if s == [] then 0
    else assert IsDigit(s[|s| - 1]); DigitsValue(s[..|s| - 1]) * 10 + (s[|s| - 1] as int - '0' as int)
  }

  lemma {:induction false} DecimalRoundTrip(n: nat)
    ensures DigitsValue(Decimal(n)) == n
  {
    if n >= 10 {
      var s := Decimal(n);
      assert s[..|s| - 1] == Decimal(n / 10);
      DecimalRoundTrip(n / 10);
    }
  }

  /** `Action::toString`: the keyword, then " x y" when a target is present,
      then " ITEM" when an item is present. */
  function ActionToString(a: Action): string
  {
    ActionTypeToString(a.kind)
    + (if a.p.Some? then " " + Decimal(a.p.value.x) + " " + Decimal(a.p.value.y) else "")
    + (if a.item.Some? then " " + ItemTypeToString(a.item.value) else "")
  }

  // ---------------------------------------------------------------------
  // A parser for command lines: the inverse of `ActionToString`, used only
  // to state that a command's text determines the command

  /** Splits a line at every space. */
  function Split(s: string): (parts: seq<string>)
    ensures |parts| > 0
  {
    if s == [] then [""]
    else
      var rest := Split(s[1..]);
      if s[0] == ' ' then [""] + rest else [[s[0]] + rest[0]] + rest[1..]
  }

  function ParseActionType(w: string): Option<ActionType>
  {
    if w == "NONE" then Some(ActionType.None)
    else if w == "WAIT" then Some(ActionType.Wait)
    else if w == "MOVE" then Some(ActionType.Move)
    else if w == "DIG" then Some(ActionType.Dig)
    else if w == "REQUEST" then Some(ActionType.Request)
    else Option.None
  }

  function ParseItemType(w: string): Option<ItemType>
  {
    if w == "NONE" then Some(ItemType.None)
    else if w == "RADAR" then Some(ItemType.Radar)
    else if w == "TRAP" then Some(ItemType.Trap)
    else if w == "ORE" then Some(ItemType.Ore)
    else Option.None
  }

  function ParseU32(w: string): Option<U32>
  {
    if w != [] && (forall i :: 0 <= i < |w| ==> IsDigit(w[i])) && DigitsValue(w) < TWO_TO_32
    then Some(DigitsValue(w))
    else Option.None
  }

  function ParsePosition(wx: string, wy: string): Option<Position>
  {
    match (ParseU32(wx), ParseU32(wy))
    case (Some(x), Some(y)) => Some(Position(x, y))
    case _ => Option.None
  }

  /** Reads one command line: a keyword followed by nothing, an item, a cell,
      or a cell and an item (the number of words tells which). */
  function ParseAction(line: string): Option<Action>
  {
    var w := Split(line);
    var kind := ParseActionType(w[0]);
    if kind.None? then Option.None
    else if |w| == 1 then Some(Action(kind.value, Option.None, Option.None))
    else if |w| == 2 then
      (var item := ParseItemType(w[1]);
       if item.None? then Option.None else Some(Action(kind.value, Option.None, Some(item.value))))
    else if |w| == 3 then
      (var p := ParsePosition(w[1], w[2]);
       if p.None? then Option.None else Some(Action(kind.value, Some(p.value), Option.None)))
    else if |w| == 4 then
      (var p, item := ParsePosition(w[1], w[2]), ParseItemType(w[3]);
       if p.None? || item.None? then Option.None
       else Some(Action(kind.value, Some(p.value), Some(item.value))))
    else Option.None
  }

  /** Words joined by single spaces. */
  function Join(ws: seq<string>): string
    requires |ws| > 0
  {
    if |ws| == 1 then ws[0] else ws[0] + " " + Join(ws[1..])
  }

  /** A space-free word followed by a space splits off as one part. */
  lemma {:induction false} SplitWord(w: string, rest: string)
    requires IsWord(w)
    ensures Split(w) == [w]
    ensures Split(w + " " + rest) == [w] + Split(rest)
  {
    assert w[0] != ' ';
    if |w| == 1 {
      assert (w + " " + rest)[1..] == " " + rest;
      assert w[1..] == [];
      assert Split(w[1..]) == [""];
      assert [w[0]] + "" == w;
    } else {
      assert w[1..] + " " + rest == (w + " " + rest)[1..];
      assert ' ' !in w[1..] by {
        forall i | 0 <= i < |w[1..]| ensures w[1..][i] != ' ' { assert w[1..][i] == w[i + 1]; }
      }
      SplitWord(w[1..], rest);
      assert [w[0]] + w[1..] == w;
    }
  }

  /** Splitting undoes joining, for space-free non-empty words. */
  lemma {:induction false} SplitJoin(ws: seq<string>)
    requires |ws| > 0 && forall i :: 0 <= i < |ws| ==> IsWord(ws[i])
    ensures Split(Join(ws)) == ws
  {
    if |ws| == 1 {
      SplitWord(ws[0], "");
    } else {
      SplitJoin(ws[1..]);
      SplitWord(ws[0], Join(ws[1..]));
    }
  }

  /** The words of a serialised command. */
  function Words(a: Action): seq<string>
  {
    [ActionTypeToString(a.kind)]
    + (if a.p.Some? then [Decimal(a.p.value.x), Decimal(a.p.value.y)] else [])
    + (if a.item.Some? then [ItemTypeToString(a.item.value)] else [])
  }

  lemma DecimalIsWord(n: nat)
    ensures IsWord(Decimal(n))
  {
    var s := Decimal(n);
    assert forall i :: 0 <= i < |s| ==> s[i] != ' ';
  }

  /** A serialised command is its words joined by single spaces. */
  lemma {:induction false} ActionToStringIsJoin(a: Action)
    ensures ActionToString(a) == Join(Words(a))
  {
    var kw := ActionTypeToString(a.kind);
    if a.p.Some? {
      var dx, dy := Decimal(a.p.value.x), Decimal(a.p.value.y);
      if a.item.Some? {
        var iw := ItemTypeToString(a.item.value);
        assert Words(a) == [kw, dx, dy, iw];
        assert Join([iw]) == iw;
        assert Join([dy, iw]) == dy + " " + iw;
        assert Join([dx, dy, iw]) == dx + " " + (dy + " " + iw) by { assert [dx, dy, iw][1..] == [dy, iw]; }
        assert Join([kw, dx, dy, iw]) == kw + " " + (dx + " " + (dy + " " + iw)) by { assert [kw, dx, dy, iw][1..] == [dx, dy, iw]; }
        assert ActionToString(a) == kw + (" " + dx + " " + dy) + (" " + iw);
      } else {
        assert Words(a) == [kw, dx, dy];
        assert Join([dy]) == dy;
        assert Join([dx, dy]) == dx + " " + dy;
        assert Join([kw, dx, dy]) == kw + " " + (dx + " " + dy) by { assert [kw, dx, dy][1..] == [dx, dy]; }
        assert ActionToString(a) == kw + (" " + dx + " " + dy) + "";
      }
    } else if a.item.Some? {
      var iw := ItemTypeToString(a.item.value);
      assert Words(a) == [kw, iw];
      assert Join([iw]) == iw;
      assert ActionToString(a) == kw + "" + (" " + iw);
    } else {
      assert Words(a) == [kw];
      assert ActionToString(a) == kw + "" + "";
    }
  }

  lemma SplitActionToString(a: Action)
    ensures Split(ActionToString(a)) == Words(a)
  {
    ActionToStringIsJoin(a);
    if a.p.Some? {
      DecimalIsWord(a.p.value.x);
      DecimalIsWord(a.p.value.y);
    }
    SplitJoin(Words(a));
  }

  lemma KeywordRoundTrip(t: ActionType)
    ensures ParseActionType(ActionTypeToString(t)) == Some(t)
  {
  }

  lemma ItemWordRoundTrip(t: ItemType)
    ensures ParseItemType(ItemTypeToString(t)) == Some(t)
  {
  }

  lemma NumberRoundTrip(n: U32)
    ensures ParseU32(Decimal(n)) == Some(n)
  {
    DecimalRoundTrip(n);
  }

  /** Every command line the bot writes reads back as the same command. */
  lemma {:induction false} ActionRoundTrip(a: Action)
    ensures ParseAction(ActionToString(a)) == Some(a)
  {
    SplitActionToString(a);
    KeywordRoundTrip(a.kind);
    if a.p.Some? {
      NumberRoundTrip(a.p.value.x);
      NumberRoundTrip(a.p.value.y);
    }
    if a.item.Some? {
      ItemWordRoundTrip(a.item.value);
    }
  }

  /** Distinct commands are written as distinct lines. */
  lemma ActionToStringInjective(a: Action, b: Action)
    requires ActionToString(a) == ActionToString(b)
    ensures a == b
  {
    ActionRoundTrip(a);
    ActionRoundTrip(b);
  }

  lemma ActionToStringExamples(y: U32)
    ensures ActionToString(Action(ActionType.Dig, Some(Position(2, 1)), Option.None)) == "DIG 2 1"
    ensures ActionToString(Action(ActionType.Request, Option.None, Some(ItemType.Radar))) == "REQUEST RADAR"
    ensures ActionToString(Action(ActionType.Move, Some(Position(0, y)), Option.None)) == "MOVE 0 " + Decimal(y)
    ensures ActionToString(Action(ActionType.Wait, Option.None, Option.None)) == "WAIT"
  {
  }
}
