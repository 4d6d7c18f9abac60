/** A serializer of trees to text: the law that the store asks of its serializers is one that strings can meet,
    whatever the values are and however they are written as strings. */
module Codecs {
  import opened Wrappers
  import opened Trees
  import opened HybridStore

  /** What a parser took from the front of a text, and what it left. */
  datatype Parsed<T> = Parsed(value: T, rest: string)

  // ----- text and numbers

  /** Every character is announced by '1', and the end by '0'. */
  function WriteText(s: string): string
  {
    if s == "" then "0" else ['1', s[0]] + WriteText(s[1..])
  }

  function ParseText(b: string): (r: Option<Parsed<string>>)
    ensures r.Some? ==> |r.value.rest| < |b|
  {
    if b == "" then None
    else if b[0] == '0' then Some(Parsed("", b[1..]))
    else if |b| == 1 then None
    else
      match ParseText(b[2..])
      case None => None
      case Some(Parsed(s, rest)) => Some(Parsed([b[1]] + s, rest))
  }

  lemma {:induction false} TextParses(s: string, x: string)
    ensures ParseText(WriteText(s) + x) == Some(Parsed(s, x))
  {
    var b := WriteText(s) + x;
    if s == "" {
      assert b[1..] == x;
    } else {
      assert b[2..] == WriteText(s[1..]) + x;
      TextParses(s[1..], x);
      assert [s[0]] + s[1..] == s;
    }
  }

  function WriteCount(n: nat): string
  {
    if n == 0 then "0" else "1" + WriteCount(n - 1)
  }

  function ParseCount(b: string): (r: Option<Parsed<nat>>)
    ensures r.Some? ==> |r.value.rest| < |b|
  {
    if b == "" then None
    else if b[0] == '0' then Some(Parsed(0, b[1..]))
    else
      match ParseCount(b[1..])
      case None => None
      case Some(Parsed(n, rest)) => Some(Parsed(n + 1, rest))
  }

  lemma {:induction false} CountParses(n: nat, x: string)
    ensures ParseCount(WriteCount(n) + x) == Some(Parsed(n, x))
  {
    var b := WriteCount(n) + x;
    if n == 0 {
      assert b[1..] == x;
    } else {
      assert b[1..] == WriteCount(n - 1) + x;
      CountParses(n - 1, x);
    }
  }

  function WriteInt(i: int): string
  {
    if i < 0 then "-" + WriteCount(-i) else "+" + WriteCount(i)
  }

  function ParseInt(b: string): (r: Option<Parsed<int>>)
    ensures r.Some? ==> |r.value.rest| < |b|
  {
    if b == "" then None
    else
      match ParseCount(b[1..])
      case None => None
      case Some(Parsed(n, rest)) =>
        var i: int := if b[0] == '-' then 0 - n else n;
        Some(Parsed(i, rest))
  }

  lemma IntParses(i: int, x: string)
    ensures ParseInt(WriteInt(i) + x) == Some(Parsed(i, x))
  {
    var n := if i < 0 then -i else i;
    assert (WriteInt(i) + x)[1..] == WriteCount(n) + x;
    CountParses(n, x);
  }

  /** The number a text starts with, zero for any other text. */
  function ReadInt(b: string): int
  {
    var p := ParseInt(b);
    if p.Some? then p.value.value else 0
  }

  lemma IntRoundTrip(i: int)
    ensures ReadInt(WriteInt(i)) == i
  {
    IntParses(i, "");
    assert WriteInt(i) + "" == WriteInt(i);
  }

  // ----- trees

  function WriteValue(value: Option<string>): string
  {
    if value.None? then "0" else "1" + WriteText(value.value)
  }

  function WriteDeadline(deadline: Option<int>): string
  {
    if deadline.None? then "0" else "1" + WriteInt(deadline.value)
  }

  function WriteTree(t: Tree<string>): string
  {
    WriteValue(t.value) + (WriteDeadline(t.deadline) + WriteChildren(t.children))
  }

  function WriteChildren(children: Option<Kids<string>>): string
  {
    if children.None? then "0" else "1" + WriteKids(children.value)
  }

  function WriteKids(ks: Kids<string>): string
  {
    match ks
    case End => "0"
    case Entry(key, sub, rest) => "1" + (WriteText(key) + (WriteTree(sub) + WriteKids(rest)))
  }

  function ParseValue(b: string): (r: Option<Parsed<Option<string>>>)
    ensures r.Some? ==> |r.value.rest| < |b|
  {
    if b == "" then None
    else if b[0] == '0' then Some(Parsed(None, b[1..]))
    else
      match ParseText(b[1..])
      case None => None
      case Some(Parsed(s, rest)) => Some(Parsed(Some(s), rest))
  }

  function ParseDeadline(b: string): (r: Option<Parsed<Option<int>>>)
    ensures r.Some? ==> |r.value.rest| < |b|
  {
    if b == "" then None
    else if b[0] == '0' then Some(Parsed(None, b[1..]))
    else
      match ParseInt(b[1..])
      case None => None
      case Some(Parsed(i, rest)) => Some(Parsed(Some(i), rest))
  }

  function ParseTree(b: string): (r: Option<Parsed<Tree<string>>>)
    ensures r.Some? ==> |r.value.rest| < |b|
    decreases |b|
  {
    match ParseValue(b)
    case None => None
    case Some(Parsed(value, afterValue)) =>
      match ParseDeadline(afterValue)
      case None => None
      case Some(Parsed(deadline, afterDeadline)) =>
        match ParseChildren(afterDeadline)
        case None => None
        case Some(Parsed(children, rest)) => Some(Parsed(Tree(value, deadline, children), rest))
  }

  function ParseChildren(b: string): (r: Option<Parsed<Option<Kids<string>>>>)
    ensures r.Some? ==> |r.value.rest| < |b|
    decreases |b|
  {
    if b == "" then None
    else if b[0] == '0' then Some(Parsed(None, b[1..]))
    else
      match ParseKids(b[1..])
      case None => None
      case Some(Parsed(ks, rest)) => Some(Parsed(Some(ks), rest))
  }

  function ParseKids(b: string): (r: Option<Parsed<Kids<string>>>)
    ensures r.Some? ==> |r.value.rest| < |b|
    decreases |b|
  {
    if b == "" then None
    else if b[0] == '0' then Some(Parsed(End, b[1..]))
    else
      match ParseText(b[1..])
      case None => None
      case Some(Parsed(key, afterKey)) =>
        match ParseTree(afterKey)
        case None => None
        case Some(Parsed(sub, afterSub)) =>
          match ParseKids(afterSub)
          case None => None
          case Some(Parsed(ks, rest)) => Some(Parsed(Entry(key, sub, ks), rest))
  }

  lemma ValueParses(value: Option<string>, x: string)
    ensures ParseValue(WriteValue(value) + x) == Some(Parsed(value, x))
  {
    var b := WriteValue(value) + x;
    if value.None? {
      assert b[1..] == x;
    } else {
      assert b[1..] == WriteText(value.value) + x;
      TextParses(value.value, x);
    }
  }

  lemma DeadlineParses(deadline: Option<int>, x: string)
    ensures ParseDeadline(WriteDeadline(deadline) + x) == Some(Parsed(deadline, x))
  {
    var b := WriteDeadline(deadline) + x;
    if deadline.None? {
      assert b[1..] == x;
    } else {
      assert b[1..] == WriteInt(deadline.value) + x;
      IntParses(deadline.value, x);
    }
  }

  lemma Nest(a: string, b: string, c: string, x: string)
    ensures (a + (b + c)) + x == a + (b + (c + x))
  {
  }

  /** A tree is read back from the front of any text that starts with it. */
  lemma {:induction false} TreeParses(t: Tree<string>, x: string)
    ensures ParseTree(WriteTree(t) + x) == Some(Parsed(t, x))
    decreases t, 1
  {
    var value, deadline, children := WriteValue(t.value), WriteDeadline(t.deadline), WriteChildren(t.children);
    Nest(value, deadline, children, x);
    ValueParses(t.value, deadline + (children + x));
    DeadlineParses(t.deadline, children + x);
    ChildrenParse(t, x);
  }

  lemma {:induction false} ChildrenParse(t: Tree<string>, x: string)
    ensures ParseChildren(WriteChildren(t.children) + x) == Some(Parsed(t.children, x))
    decreases t, 0
  {
    var b := WriteChildren(t.children) + x;
    if t.children.None? {
      assert b[1..] == x;
    } else {
      assert b[1..] == WriteKids(t.children.value) + x;
      KidsParse(t.children.value, x);
    }
  }

  lemma {:induction false} KidsParse(ks: Kids<string>, x: string)
    ensures ParseKids(WriteKids(ks) + x) == Some(Parsed(ks, x))
    decreases ks, 0
  {
    var b := WriteKids(ks) + x;
    match ks
    case End =>
      assert b[1..] == x;
    case Entry(key, sub, rest) =>
      var below := WriteKids(rest) + x;
      Nest(WriteText(key), WriteTree(sub), WriteKids(rest), x);
      assert b[1..] == WriteText(key) + (WriteTree(sub) + below);
      TextParses(key, WriteTree(sub) + below);
      TreeParses(sub, below);
      KidsParse(rest, x);
  }

  /** The tree a text is, an empty tree for a text that is none or that gives a child twice. */
  function ReadTree(b: string): (t: Tree<string>)
    ensures WellKeyed(t)
  {
    var p := ParseTree(b);
    if p.Some? && p.value.rest == "" && WellKeyed(p.value.value) then p.value.value else Blank()
  }

  /** Any way to write values as strings, with the tree text beside it, is a lawful serializer. */
  lemma StringsAreLawful<V(!new)>(serialize: V -> string, deserialize: string -> V)
    requires forall v :: deserialize(serialize(v)) == v
    ensures Codec(serialize, deserialize, WriteTree, ReadTree).Lawful()
  {
    forall t | WellKeyed(t)
      ensures ReadTree(WriteTree(t)) == t
    {
      TreeParses(t, "");
      assert WriteTree(t) + "" == WriteTree(t);
    }
  }

  /** Counts written as text. */
  function CountCodec(): Codec<int, string>
  {
    Codec(WriteInt, ReadInt, WriteTree, ReadTree)
  }

  lemma CountsAreLawful()
    ensures CountCodec().Lawful()
  {
    forall i: int
      ensures ReadInt(WriteInt(i)) == i
    {
      IntRoundTrip(i);
    }
    StringsAreLawful(WriteInt, ReadInt);
  }

  /** Values and trees told apart by a first letter: trees read as nothing from the text of a value, and any text
      that is no value's reads as the value `other`. */
  function TaggedCodec<V(!new)>(serialize: V -> string, deserialize: string -> V, other: V): Codec<V, string>
  {
    Codec(
      v => "v" + serialize(v), b => if b != "" && b[0] == 'v' then deserialize(b[1..]) else other,
      t => "t" + WriteTree(t), b => if b != "" && b[0] == 't' then ReadTree(b[1..]) else Blank())
  }

  lemma TaggedIsLawful<V(!new)>(serialize: V -> string, deserialize: string -> V, other: V)
    requires forall v :: deserialize(serialize(v)) == v
    ensures TaggedCodec(serialize, deserialize, other).Lawful()
  {
    var codec := TaggedCodec(serialize, deserialize, other);
    StringsAreLawful(serialize, deserialize);
    forall v
      ensures codec.deserialize(codec.serialize(v)) == v
    {
      assert ("v" + serialize(v))[1..] == serialize(v);
    }
    forall t | WellKeyed(t)
      ensures codec.deserializeTree(codec.serializeTree(t)) == t
    {
      assert ("t" + WriteTree(t))[1..] == WriteTree(t);
      assert Codec(serialize, deserialize, WriteTree, ReadTree).deserializeTree(WriteTree(t)) == t;
    }
  }
}
