/** The in-memory model of a Scott Adams adventure (misc/rusty_adams/src/game.rs):
    plain data records and the two packed-integer codecs, `Condition` and
    `ActionType`. */
module Game {
  import opened Int32
  import opened Results

  /** Light duration that never runs out. */
  const ETERNAL_LIGHT: int := -1
  /** Item location meaning "in the player's inventory". */
  const INVENTORY: int := -1

  datatype Game = Game(
    header: Header,
    actions: seq<Action>,
    verbs: seq<Word>,
    nouns: seq<Word>,
    rooms: seq<Room>,
    messages: seq<string>,
    items: seq<Item>,
    footer: Footer)

  /** The twelve header integers, in file order. The five counts hold the
      true number of entries (the file stores one less). */
  datatype Header = Header(
    unknown0: int,
    numItems: int,
    numActions: int,
    numWords: int,
    numRooms: int,
    maxInventory: int,
    startingRoom: int,
    numTreasures: int,
    wordLength: int,
    lightDuration: int,
    numMessages: int,
    treasureRoom: int)

  /** One action: five conditions and four sub-actions (Rust fixed-size
      arrays, here sequences whose lengths the decoder fixes). */
  datatype Action = Action(
    verbIndex: int,
    nounIndex: int,
    conditions: seq<Condition>,
    actions: seq<ActionType>,
    comment: Option<string>)

  datatype Word = Word(word: string, isSynonym: bool)

  datatype Room = Room(description: string, isLiteral: bool, exits: seq<int>)

  datatype Item = Item(description: string, location: int, isTreasure: bool, autograb: Option<string>)

  datatype Footer = Footer(version: int, adventure: int, magic: int)

  // ---------------------------------------------------------------------
  // Conditions: packed as type + 20 * parameter
  // ---------------------------------------------------------------------

  datatype Condition =
    | Parameter(n: int)
    | ItemCarried(n: int)
    | ItemInRoom(n: int)
    | ItemPresent(n: int)
    | PlayerInRoom(n: int)
    | ItemNotInRoom(n: int)
    | ItemNotCarried(n: int)
    | PlayerNotInRoom(n: int)
    | BitSet(n: int)
    | BitClear(n: int)
    | InventoryNotEmpty(n: int)
    | InventoryEmpty(n: int)
    | ItemNotPresent(n: int)
    | ItemInGame(n: int)
    | ItemNotInGame(n: int)
    | CounterLE(n: int)
    | CounterGE(n: int)
    | ItemMoved(n: int)
    | ItemNotMoved(n: int)
    | CounterEQ(n: int)
    | Invalid(typ: int, n: int)

  /** The type tag of a condition: its position among the twenty named
      variants, or the raw tag an `Invalid` carries. */
  function TypeCode(c: Condition): int {
    match c
    case Parameter(_) => 0
    case ItemCarried(_) => 1
    case ItemInRoom(_) => 2
    case ItemPresent(_) => 3
    case PlayerInRoom(_) => 4
    case ItemNotInRoom(_) => 5
    case ItemNotCarried(_) => 6
    case PlayerNotInRoom(_) => 7
    case BitSet(_) => 8
    case BitClear(_) => 9
    case InventoryNotEmpty(_) => 10
    case InventoryEmpty(_) => 11
    case ItemNotPresent(_) => 12
    case ItemInGame(_) => 13
    case ItemNotInGame(_) => 14
    case CounterLE(_) => 15
    case CounterGE(_) => 16
    case ItemMoved(_) => 17
    case ItemNotMoved(_) => 18
    case CounterEQ(_) => 19
    case Invalid(t, _) => t
  }

  /** `Condition::from_i32`: parameter `num / 20`, type `num % 20`, both
      truncating, so a negative `num` that is not a multiple of 20 gives an
      `Invalid` with a negative type. */
  function ConditionFromI32(num: int): (r: Condition)
    ensures r.n == RDiv(num, 20)
    ensures TypeCode(r) == RMod(num, 20)
    ensures r.Invalid? <==> RMod(num, 20) < 0
  {
    DivMod(num, 20);
    var param := RDiv(num, 20);
    match RMod(num, 20)
    case 0 => Parameter(param)
    case 1 => ItemCarried(param)
    case 2 => ItemInRoom(param)
    case 3 => ItemPresent(param)
    case 4 => PlayerInRoom(param)
    case 5 => ItemNotInRoom(param)
    case 6 => ItemNotCarried(param)
    case 7 => PlayerNotInRoom(param)
    case 8 => BitSet(param)
    case 9 => BitClear(param)
    case 10 => InventoryNotEmpty(param)
    case 11 => InventoryEmpty(param)
    case 12 => ItemNotPresent(param)
    case 13 => ItemInGame(param)
    case 14 => ItemNotInGame(param)
    case 15 => CounterLE(param)
    case 16 => CounterGE(param)
    case 17 => ItemMoved(param)
    case 18 => ItemNotMoved(param)
    case 19 => CounterEQ(param)
    case _ => Invalid(RMod(num, 20), param)
  }

  /** `Condition::to_i32` computes `n * 20`, then adds the type, in `i32`;
      the model asks that neither step overflows. */
  predicate ConditionFits(c: Condition) {
    IsI32(c.n * 20) && IsI32(TypeCode(c) + c.n * 20)
  }

  /** `Condition::to_i32`. */
  function ConditionToI32(c: Condition): (r: int)
    requires ConditionFits(c)
    ensures IsI32(r)
    ensures r == TypeCode(c) + 20 * c.n
  {
    match c
    case Parameter(n) => 0 + (n * 20)
    case ItemCarried(n) => 1 + (n * 20)
    case ItemInRoom(n) => 2 + (n * 20)
    case ItemPresent(n) => 3 + (n * 20)
    case PlayerInRoom(n) => 4 + (n * 20)
    case ItemNotInRoom(n) => 5 + (n * 20)
    case ItemNotCarried(n) => 6 + (n * 20)
    case PlayerNotInRoom(n) => 7 + (n * 20)
    case BitSet(n) => 8 + (n * 20)
    case BitClear(n) => 9 + (n * 20)
    case InventoryNotEmpty(n) => 10 + (n * 20)
    case InventoryEmpty(n) => 11 + (n * 20)
    case ItemNotPresent(n) => 12 + (n * 20)
    case ItemInGame(n) => 13 + (n * 20)
    case ItemNotInGame(n) => 14 + (n * 20)
    case CounterLE(n) => 15 + (n * 20)
    case CounterGE(n) => 16 + (n * 20)
    case ItemMoved(n) => 17 + (n * 20)
    case ItemNotMoved(n) => 18 + (n * 20)
    case CounterEQ(n) => 19 + (n * 20)
    case Invalid(typ, n) => typ + (n * 20)
  }

  /** The conditions `ConditionFromI32` can produce: a `Parameter` with any
      parameter, another named condition with a parameter of at least 0, or
      an `Invalid` with a tag in -19..-1 and a parameter of at most 0. */
  predicate CanonicalCondition(c: Condition) {
    match c
    case Parameter(_) => true
    case Invalid(t, n) => -20 < t < 0 && n <= 0
    case _ => c.n >= 0
  }

  /** Decoding then encoding any `i32` gives it back. */
  lemma ConditionEncodeDecode(num: int)
    requires IsI32(num)
    ensures ConditionFits(ConditionFromI32(num))
    ensures ConditionToI32(ConditionFromI32(num)) == num
    ensures CanonicalCondition(ConditionFromI32(num))
  {
    DivMod(num, 20);
  }

  /** Encoding then decoding gives back exactly the canonical conditions:
      for a condition that does not overflow, the round trip holds if and
      only if it is canonical. */
  lemma ConditionDecodeEncode(c: Condition)
    requires ConditionFits(c)
    ensures ConditionFromI32(ConditionToI32(c)) == c <==> CanonicalCondition(c)
  {
    var num := ConditionToI32(c);
    if CanonicalCondition(c) {
      var t, n := TypeCode(c), c.n;
      assert num == n * 20 + t;
      if t >= 0 {
        if n >= 0 {
          DivModUnique(num, 20, n, t);
        } else {
          assert t == 0;
          DivModUnique(num, 20, n, 0);
        }
      } else {
        DivModUnique(num, 20, n, t);
      }
    } else {
      ConditionEncodeDecode(num);
    }
  }

  // ---------------------------------------------------------------------
  // Sub-actions: one opcode per half of a packed integer
  // ---------------------------------------------------------------------

  datatype ActionType =
    | Nothing
    | Message(index: int)
    | GetItem
    | DropItem
    | MovePlayer
    | RemoveItem(dup: bool)
    | SetDarkness
    | ClearDarkness
    | SetBit
    | ClearBit
    | Death
    | PutItem
    | GameOver
    | DescribeRoom(dup: bool)
    | Score
    | Inventory
    | SetBit0
    | ClearBit0
    | RefillLight
    | ClearScreen
    | SaveGame
    | SwapItems
    | Continue
    | TakeItem
    | MoveItemToItem
    | DecrementCounter
    | PrintCounter
    | SetCounter
    | SwapLocation
    | SelectCounter
    | AddToCounter
    | SubFromCounter
    | EchoNoun
    | EchoNounCR
    | EchoCR
    | SwapLocationN
    | Delay
    | DrawPicture
    | Unknown(raw: int)

  /** `ActionType::from_i32`: 0 is `Nothing`, 1..51 and 102..150 print
      messages 0..50 and 51..99, 52..89 are the named opcodes (55/59 and
      64/76 are duplicate pairs kept apart by a flag), anything else is
      kept verbatim as `Unknown` (the source's `ActionType::Invalid`). */
  function ActionTypeFromI32(num: int): (r: ActionType)
    ensures r == Nothing <==> num == 0
    ensures r.Message? <==> 1 <= num <= 51 || 102 <= num <= 150
    ensures r.Message? ==> r.index == if num <= 51 then num - 1 else num - 51
    ensures r.Unknown? <==> num < 0 || 90 <= num <= 101 || num > 150
    ensures r.Unknown? ==> r.raw == num
  {
    match num
    case 0 => Nothing
    case 52 => GetItem
    case 53 => DropItem
    case 54 => MovePlayer
    case 55 => RemoveItem(false)
    case 56 => SetDarkness
    case 57 => ClearDarkness
    case 58 => SetBit
    case 59 => RemoveItem(true)
    case 60 => ClearBit
    case 61 => Death
    case 62 => PutItem
    case 63 => GameOver
    case 64 => DescribeRoom(false)
    case 65 => Score
    case 66 => Inventory
    case 67 => SetBit0
    case 68 => ClearBit0
    case 69 => RefillLight
    case 70 => ClearScreen
    case 71 => SaveGame
    case 72 => SwapItems
    case 73 => Continue
    case 74 => TakeItem
    case 75 => MoveItemToItem
    case 76 => DescribeRoom(true)
    case 77 => DecrementCounter
    case 78 => PrintCounter
    case 79 => SetCounter
    case 80 => SwapLocation
    case 81 => SelectCounter
    case 82 => AddToCounter
    case 83 => SubFromCounter
    case 84 => EchoNoun
    case 85 => EchoNounCR
    case 86 => EchoCR
    case 87 => SwapLocationN
    case 88 => Delay
    case 89 => DrawPicture
    case _ =>
      if 1 <= num <= 51 then Message(num - 1)
      else if 102 <= num <= 150 then Message(num - 51)
      else Unknown(num)
  }

  /** `ActionType::to_i32`. A message index outside 0..99 has no encoding
      and yields 0. */
  function ActionTypeToI32(t: ActionType): (r: int)
    ensures t.Unknown? ==> r == t.raw
    ensures !t.Unknown? ==> 0 <= r <= 150
  {
    match t
    case Nothing => 0
    case Message(num) =>
      if 0 <= num <= 50 then num + 1
      else if 51 <= num <= 99 then num + 51
      else 0
    case GetItem => 52
    case DropItem => 53
    case MovePlayer => 54
    case RemoveItem(dup) => if !dup then 55 else 59
    case SetDarkness => 56
    case ClearDarkness => 57
    case SetBit => 58
    case ClearBit => 60
    case Death => 61
    case PutItem => 62
    case GameOver => 63
    case DescribeRoom(dup) => if !dup then 64 else 76
    case Score => 65
    case Inventory => 66
    case SetBit0 => 67
    case ClearBit0 => 68
    case RefillLight => 69
    case ClearScreen => 70
    case SaveGame => 71
    case SwapItems => 72
    case Continue => 73
    case TakeItem => 74
    case MoveItemToItem => 75
    case DecrementCounter => 77
    case PrintCounter => 78
    case SetCounter => 79
    case SwapLocation => 80
    case SelectCounter => 81
    case AddToCounter => 82
    case SubFromCounter => 83
    case EchoNoun => 84
    case EchoNounCR => 85
    case EchoCR => 86
    case SwapLocationN => 87
    case Delay => 88
    case DrawPicture => 89
    case Unknown(num) => num
  }

  /** The sub-actions `ActionTypeFromI32` can produce. */
  predicate CanonicalActionType(t: ActionType) {
    match t
    case Message(n) => 0 <= n <= 99
    case Unknown(raw) => raw < 0 || 90 <= raw <= 101 || raw > 150
    case _ => true
  }

  /** Decoding then encoding any integer gives it back, duplicates included. */
  lemma ActionTypeEncodeDecode(num: int)
    ensures ActionTypeToI32(ActionTypeFromI32(num)) == num
    ensures CanonicalActionType(ActionTypeFromI32(num))
  {
  }

  /** Encoding then decoding gives back exactly the canonical sub-actions. */
  lemma ActionTypeDecodeEncode(t: ActionType)
    ensures ActionTypeFromI32(ActionTypeToI32(t)) == t <==> CanonicalActionType(t)
  {
    if CanonicalActionType(t) {
      CanonicalActionTypeBack(t);
    } else {
      ActionTypeEncodeDecode(ActionTypeToI32(t));
    }
  }

  lemma CanonicalActionTypeBack(t: ActionType)
    requires CanonicalActionType(t)
    ensures ActionTypeFromI32(ActionTypeToI32(t)) == t
  {
    match t
    case Message(n) =>
    case Unknown(raw) =>
    case _ =>
  }

  /** A message is encoded as index + 1 below 51 and index + 51 from 51 to
      99, and survives the round trip exactly when its index is in 0..99. */
  lemma MessageEncoding(index: int)
    ensures 0 <= index <= 50 ==> ActionTypeToI32(Message(index)) == index + 1
    ensures 51 <= index <= 99 ==> ActionTypeToI32(Message(index)) == index + 51
    ensures !(0 <= index <= 99) ==> ActionTypeToI32(Message(index)) == 0
    ensures ActionTypeFromI32(ActionTypeToI32(Message(index))) == Message(index) <==> 0 <= index <= 99
  {
    ActionTypeDecodeEncode(Message(index));
  }

  /** The duplicate opcodes decode to distinct values that encode back to their own raw opcode. */
  lemma DuplicateOpcodes()
    ensures ActionTypeFromI32(55) == RemoveItem(false) && ActionTypeFromI32(59) == RemoveItem(true)
    ensures ActionTypeFromI32(64) == DescribeRoom(false) && ActionTypeFromI32(76) == DescribeRoom(true)
    ensures ActionTypeToI32(RemoveItem(false)) == 55 && ActionTypeToI32(RemoveItem(true)) == 59
    ensures ActionTypeToI32(DescribeRoom(false)) == 64 && ActionTypeToI32(DescribeRoom(true)) == 76
  {
  }
}
