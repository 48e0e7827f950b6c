/** The gate in front of the JSON decoder: one walk over the token stream that
  * bounds nesting and refuses repeated object keys. */
module JsonGate {
  import opened Wrappers

  const MAX_DEPTH := 32

  /** The decoder's tokens; Garbage is text that is no token. Numbers, booleans and
    * null need no telling apart. */
  datatype Token =
    | OpenArray | CloseArray | OpenObject | CloseObject
    | Text(s: string) | Scalar(literal: string) | Garbage

  /** What is still to be read. */
  datatype Stream = End | More(head: Token, tail: Stream)

  function Length(s: Stream): nat {
    match s
    case End => 0
    case More(_, tail) => 1 + Length(tail)
  }

  // ---------------------------------------------------------------- what the walk accepts

  /** What follows the value at the front of the stream, or None if that is refused. */
  function WalkValue(s: Stream, depth: nat): (rest: Option<Stream>)
    ensures rest.Some? ==> Length(rest.value) < Length(s)
    decreases Length(s), 0
  {
    if depth > MAX_DEPTH then None
    else
      match s
      case More(Text(_), tail) => Some(tail)
      case More(Scalar(_), tail) => Some(tail)
      case More(OpenArray, tail) => WalkItems(tail, depth)
      case More(OpenObject, tail) => WalkMembers(tail, depth, {})
      case _ => None
  }

  /** From inside an array to behind its end. */
  function WalkItems(s: Stream, depth: nat): (rest: Option<Stream>)
    ensures rest.Some? ==> Length(rest.value) < Length(s)
    decreases Length(s), 1
  {
    match s
    case More(CloseArray, tail) => Some(tail)
    case More(CloseObject, _) => None
    case End => None
    case _ =>
      var next :- WalkValue(s, depth + 1);
      WalkItems(next, depth)
  }

  /** From inside an object, with the keys seen so far, to behind its end. */
  function WalkMembers(s: Stream, depth: nat, seen: set<string>): (rest: Option<Stream>)
    ensures rest.Some? ==> Length(rest.value) < Length(s)
    decreases Length(s), 1
  {
    match s
    case More(CloseObject, tail) => Some(tail)
    case More(Text(key), tail) =>
      if key in seen then None
      else
        var next :- WalkValue(tail, depth + 1);
        WalkMembers(next, depth, seen + {key})
    case _ => None
  }

  // ---------------------------------------------------------------- the decoder

  /** Where the decoder is inside the containers it has opened. */
  datatype Context = InArray | AtKey | AtValue

  predicate KeyExpected(stack: seq<Context>) {
    |stack| > 0 && stack[|stack| - 1].AtKey?
  }

  /** After a value: an object goes on with the next key. */
  function Consumed(stack: seq<Context>): seq<Context> {
    if |stack| > 0 && stack[|stack| - 1].AtValue? then stack[..|stack| - 1] + [AtKey] else stack
  }

  predicate Innermost(stack: seq<Context>, c: Context) {
    |stack| > 0 && stack[|stack| - 1] == c
  }

  /** The stack after a token, or None if the token is a syntax error there. */
  function Shift(stack: seq<Context>, t: Token): Option<seq<Context>> {
    match t
    case Garbage => None
    case CloseArray => if Innermost(stack, InArray) then Some(stack[..|stack| - 1]) else None
    case CloseObject => if Innermost(stack, AtKey) then Some(stack[..|stack| - 1]) else None
    case Text(_) => if KeyExpected(stack) then Some(stack[..|stack| - 1] + [AtValue]) else Some(Consumed(stack))
    case Scalar(_) => if KeyExpected(stack) then None else Some(Consumed(stack))
    case OpenArray => if KeyExpected(stack) then None else Some(Consumed(stack) + [InArray])
    case OpenObject => if KeyExpected(stack) then None else Some(Consumed(stack) + [AtKey])
  }

  class Decoder {
    var input: Stream
    var stack: seq<Context>

    constructor (input: Stream)
      ensures this.input == input && stack == []
    {
      this.input := input;
      stack := [];
    }

    /** Another element or member follows in the innermost container. */
    predicate MoreFollows()
      reads this
    {
      input.More? && !input.head.CloseArray? && !input.head.CloseObject?
    }

    method Next() returns (t: Option<Token>)
      modifies this
      ensures old(input).More? && Shift(old(stack), old(input).head).Some? ==>
                && t == Some(old(input).head) && input == old(input).tail
                && stack == Shift(old(stack), old(input).head).value
      ensures !(old(input).More? && Shift(old(stack), old(input).head).Some?) ==>
                t == None && input == old(input) && stack == old(stack)
    {
      if input.End? {
        return None;
      }
      var shifted := Shift(stack, input.head);
      if shifted.None? {
        return None;
      }
      t := Some(input.head);
      input, stack := input.tail, shifted.value;
    }
  }

  /** A key and its value leave the decoder expecting the next key. */
  lemma {:induction false} MemberContext(outer: seq<Context>)
    ensures (outer + [AtKey])[..|outer|] + [AtValue] == outer + [AtValue]
    ensures Consumed(outer + [AtValue]) == outer + [AtKey]
  {
    assert (outer + [AtValue])[..|outer|] == outer;
  }

  /** walkJSON: it accepts and consumes exactly what WalkValue describes. */
  method WalkJSON(dec: Decoder, depth: nat) returns (ok: bool)
    requires !KeyExpected(dec.stack)
    modifies dec
    ensures ok <==> WalkValue(old(dec.input), depth).Some?
    ensures ok ==> Some(dec.input) == WalkValue(old(dec.input), depth) && dec.stack == Consumed(old(dec.stack))
    decreases Length(dec.input), 0
  {
    if depth > MAX_DEPTH {
      return false;
    }
    ghost var outer := Consumed(dec.stack);
    var token := dec.Next();
    if token.None? {
      return false;
    }
    match token.value {
      case Text(_) =>
        return true;
      case Scalar(_) =>
        return true;
      case OpenObject =>
        ok := WalkObject(dec, depth, outer);
      case OpenArray =>
        ok := WalkArray(dec, depth, outer);
      case _ =>
        return false;
    }
  }

  /** The '{' case, from the first key on; `outer` is the context around it. */
  method WalkObject(dec: Decoder, depth: nat, ghost outer: seq<Context>) returns (ok: bool)
    requires dec.stack == outer + [AtKey]
    modifies dec
    ensures ok <==> WalkMembers(old(dec.input), depth, {}).Some?
    ensures ok ==> Some(dec.input) == WalkMembers(old(dec.input), depth, {}) && dec.stack == outer
    decreases Length(dec.input), 1
  {
    var seen: set<string> := {};
    while dec.MoreFollows()
      invariant Length(dec.input) <= Length(old(dec.input)) && dec.stack == outer + [AtKey]
      invariant WalkMembers(dec.input, depth, seen) == WalkMembers(old(dec.input), depth, {})
      decreases Length(dec.input)
    {
      var key := dec.Next();
      if key.None? || !key.value.Text? || key.value.s in seen {
        return false;
      }
      seen := seen + {key.value.s};
      MemberContext(outer);
      var member := WalkJSON(dec, depth + 1);
      if !member {
        return false;
      }
    }
    var close := dec.Next();
    ok := close.Some?;
  }

  /** The '[' case. */
  method WalkArray(dec: Decoder, depth: nat, ghost outer: seq<Context>) returns (ok: bool)
    requires dec.stack == outer + [InArray]
    modifies dec
    ensures ok <==> WalkItems(old(dec.input), depth).Some?
    ensures ok ==> Some(dec.input) == WalkItems(old(dec.input), depth) && dec.stack == outer
    decreases Length(dec.input), 1
  {
    while dec.MoreFollows()
      invariant Length(dec.input) <= Length(old(dec.input)) && dec.stack == outer + [InArray]
      invariant WalkItems(dec.input, depth) == WalkItems(old(dec.input), depth)
      decreases Length(dec.input)
    {
      var item := WalkJSON(dec, depth + 1);
      if !item {
        return false;
      }
    }
    var close := dec.Next();
    ok := close.Some?;
  }

  /** uniqueKeys, after the check for UTF-8: one document and nothing behind it. */
  method UniqueKeys(input: Stream) returns (ok: bool)
    ensures ok <==> WalkValue(input, 0) == Some(End)
  {
    var dec := new Decoder(input);
    ok := WalkJSON(dec, 0);
    if ok {
      ok := dec.input.End?;
    }
  }

  // ---------------------------------------------------------------- JSON trees

  datatype Tree = String(s: string) | Literal(literal: string) | Array(items: Items) | Object(members: Members)
  datatype Items = NoItems | Item(head: Tree, tail: Items)
  datatype Members = NoMembers | Member(key: string, value: Tree, rest: Members)

  /** The tokens of a tree, in front of what follows it. */
  function Tokens(t: Tree, rest: Stream): Stream
    decreases t
  {
    match t
    case String(s) => More(Text(s), rest)
    case Literal(l) => More(Scalar(l), rest)
    case Array(items) => More(OpenArray, ItemTokens(items, More(CloseArray, rest)))
    case Object(ms) => More(OpenObject, MemberTokens(ms, More(CloseObject, rest)))
  }

  function ItemTokens(items: Items, rest: Stream): Stream
    decreases items
  {
    match items
    case NoItems => rest
    case Item(head, tail) => Tokens(head, ItemTokens(tail, rest))
  }

  function MemberTokens(ms: Members, rest: Stream): Stream
    decreases ms
  {
    match ms
    case NoMembers => rest
    case Member(key, value, more) => More(Text(key), Tokens(value, MemberTokens(more, rest)))
  }

  /** Levels of nesting below the root. */
  function Height(t: Tree): nat {
    match t
    case Array(items) => ItemsHeight(items)
    case Object(ms) => MembersHeight(ms)
    case _ => 0
  }

  function ItemsHeight(items: Items): nat {
    match items
    case NoItems => 0
    case Item(head, tail) => Max(1 + Height(head), ItemsHeight(tail))
  }

  function MembersHeight(ms: Members): nat {
    match ms
    case NoMembers => 0
    case Member(_, value, rest) => Max(1 + Height(value), MembersHeight(rest))
  }

  function Keys(ms: Members): set<string> {
    match ms
    case NoMembers => {}
    case Member(key, _, rest) => {key} + Keys(rest)
  }

  /** No object at any level repeats a key. */
  predicate KeyUnique(t: Tree) {
    match t
    case Array(items) => ItemsUnique(items)
    case Object(ms) => MembersUnique(ms)
    case _ => true
  }

  predicate ItemsUnique(items: Items) {
    match items
    case NoItems => true
    case Item(head, tail) => KeyUnique(head) && ItemsUnique(tail)
  }

  predicate MembersUnique(ms: Members) {
    match ms
    case NoMembers => true
    case Member(key, value, rest) => key !in Keys(rest) && KeyUnique(value) && MembersUnique(rest)
  }

  /** checkDepth on the parsed value. */
  predicate CheckDepth(t: Tree, depth: nat) {
    depth <= MAX_DEPTH &&
    match t
    case Array(items) => CheckItems(items, depth + 1)
    case Object(ms) => CheckMembers(ms, depth + 1)
    case _ => true
  }

  predicate CheckItems(items: Items, depth: nat) {
    match items
    case NoItems => true
    case Item(head, tail) => CheckDepth(head, depth) && CheckItems(tail, depth)
  }

  predicate CheckMembers(ms: Members, depth: nat) {
    match ms
    case NoMembers => true
    case Member(_, value, rest) => CheckDepth(value, depth) && CheckMembers(rest, depth)
  }

  // ---------------------------------------------------------------- exactly the good trees

  predicate Good(t: Tree, depth: nat) {
    KeyUnique(t) && CheckDepth(t, depth)
  }

  predicate GoodItems(items: Items, depth: nat) {
    ItemsUnique(items) && CheckItems(items, depth + 1)
  }

  /** No key is repeated, counting those seen before. */
  predicate UniqueFrom(ms: Members, seen: set<string>) {
    match ms
    case NoMembers => true
    case Member(key, value, rest) => key !in seen && KeyUnique(value) && UniqueFrom(rest, seen + {key})
  }

  predicate GoodMembers(ms: Members, depth: nat, seen: set<string>) {
    UniqueFrom(ms, seen) && CheckMembers(ms, depth + 1)
  }

  lemma {:induction false} UniqueFromSeen(ms: Members, seen: set<string>)
    ensures UniqueFrom(ms, seen) <==> MembersUnique(ms) && Keys(ms) !! seen
    decreases ms
  {
    if ms.Member? {
      UniqueFromSeen(ms.rest, seen + {ms.key});
    }
  }

  /** On the tokens of any tree, whatever follows them, the walk consumes exactly
    * these tokens if the tree is good, and refuses otherwise. */
  lemma {:induction false} WalkDecides(t: Tree, rest: Stream, depth: nat)
    ensures WalkValue(Tokens(t, rest), depth) == if Good(t, depth) then Some(rest) else None
    decreases t
  {
    match t
    case Array(items) =>
      ItemsDecide(items, rest, depth);
    case Object(ms) =>
      MembersDecide(ms, rest, depth, {});
      UniqueFromSeen(ms, {});
    case _ =>
  }

  lemma {:induction false} ItemsDecide(items: Items, rest: Stream, depth: nat)
    ensures WalkItems(ItemTokens(items, More(CloseArray, rest)), depth)
            == if GoodItems(items, depth) then Some(rest) else None
    decreases items
  {
    match items
    case NoItems =>
    case Item(head, tail) =>
      WalkDecides(head, ItemTokens(tail, More(CloseArray, rest)), depth + 1);
      ItemsDecide(tail, rest, depth);
  }

  lemma {:induction false} MembersDecide(ms: Members, rest: Stream, depth: nat, seen: set<string>)
    ensures WalkMembers(MemberTokens(ms, More(CloseObject, rest)), depth, seen)
            == if GoodMembers(ms, depth, seen) then Some(rest) else None
    decreases ms
  {
    match ms
    case NoMembers =>
    case Member(key, value, more) =>
      WalkDecides(value, MemberTokens(more, More(CloseObject, rest)), depth + 1);
      MembersDecide(more, rest, depth, seen + {key});
  }

  /** Whatever stream is accepted, it starts with the tokens of a good tree. */
  lemma {:induction false} AcceptedIsTree(s: Stream, depth: nat) returns (t: Tree)
    requires WalkValue(s, depth).Some?
    ensures Good(t, depth) && s == Tokens(t, WalkValue(s, depth).value)
    decreases Length(s), 0
  {
    match s.head
    case Text(text) =>
      t := String(text);
    case Scalar(l) =>
      t := Literal(l);
    case OpenArray =>
      var items := AcceptedItems(s.tail, depth);
      t := Array(items);
    case OpenObject =>
      var ms := AcceptedMembers(s.tail, depth, {});
      UniqueFromSeen(ms, {});
      t := Object(ms);
  }

  lemma {:induction false} AcceptedItems(s: Stream, depth: nat) returns (items: Items)
    requires WalkItems(s, depth).Some?
    ensures GoodItems(items, depth) && s == ItemTokens(items, More(CloseArray, WalkItems(s, depth).value))
    decreases Length(s), 1
  {
    if s.head.CloseArray? {
      items := NoItems;
    } else {
      var head := AcceptedIsTree(s, depth + 1);
      var tail := AcceptedItems(WalkValue(s, depth + 1).value, depth);
      items := Item(head, tail);
    }
  }

  lemma {:induction false} AcceptedMembers(s: Stream, depth: nat, seen: set<string>) returns (ms: Members)
    requires WalkMembers(s, depth, seen).Some?
    ensures GoodMembers(ms, depth, seen) && s == MemberTokens(ms, More(CloseObject, WalkMembers(s, depth, seen).value))
    decreases Length(s), 1
  {
    if s.head.CloseObject? {
      ms := NoMembers;
    } else {
      var key := s.head.s;
      var value := AcceptedIsTree(s.tail, depth + 1);
      var more := AcceptedMembers(WalkValue(s.tail, depth + 1).value, depth, seen + {key});
      ms := Member(key, value, more);
    }
  }

  /** The gate passes a token stream exactly if it is one JSON document in which no
    * object repeats a key and which nests at most 32 levels deep. */
  lemma {:induction false} GateIsExact(input: Stream)
    ensures WalkValue(input, 0) == Some(End)
            <==> exists t :: input == Tokens(t, End) && KeyUnique(t) && Height(t) <= 32
  {
    if WalkValue(input, 0) == Some(End) {
      var t := AcceptedIsTree(input, 0);
      CheckDepthIsHeight(t, 0);
    }
    forall t | input == Tokens(t, End) && KeyUnique(t) && Height(t) <= 32
      ensures WalkValue(input, 0) == Some(End)
    {
      WalkDecides(t, End, 0);
      CheckDepthIsHeight(t, 0);
    }
  }

  // ---------------------------------------------------------------- the check of the MQTT publisher

  /** The publisher's recursive check is a bound on the height. */
  lemma {:induction false} CheckDepthIsHeight(t: Tree, depth: nat)
    requires depth <= 33
    ensures CheckDepth(t, depth) <==> depth + Height(t) <= 32
    decreases t
  {
    match t
    case Array(items) =>
      if depth <= MAX_DEPTH {
        CheckItemsIsHeight(items, depth);
      }
    case Object(ms) =>
      if depth <= MAX_DEPTH {
        CheckMembersIsHeight(ms, depth);
      }
    case _ =>
  }

  lemma {:induction false} CheckItemsIsHeight(items: Items, depth: nat)
    requires depth <= MAX_DEPTH
    ensures CheckItems(items, depth + 1) <==> depth + ItemsHeight(items) <= MAX_DEPTH
    decreases items
  {
    if items.Item? {
      CheckDepthIsHeight(items.head, depth + 1);
      CheckItemsIsHeight(items.tail, depth);
    }
  }

  lemma {:induction false} CheckMembersIsHeight(ms: Members, depth: nat)
    requires depth <= MAX_DEPTH
    ensures CheckMembers(ms, depth + 1) <==> depth + MembersHeight(ms) <= MAX_DEPTH
    decreases ms
  {
    if ms.Member? {
      CheckDepthIsHeight(ms.value, depth + 1);
      CheckMembersIsHeight(ms.rest, depth);
    }
  }

  /** On documents without repeated keys the API's gate and the publisher's check
    * give the same verdict. */
  lemma {:induction false} GatesAgree(t: Tree)
    requires KeyUnique(t)
    ensures WalkValue(Tokens(t, End), 0) == Some(End) <==> CheckDepth(t, 0)
  {
    WalkDecides(t, End, 0);
  }
}
