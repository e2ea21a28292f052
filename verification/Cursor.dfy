/** The cursor over a source text: position and the arena of nodes read so far. */
module Cursor {
  import opened Wrappers
  import opened Numbers
  import opened Strings
  import opened Grammar

  /** A node of an arena; containers refer to other nodes by index. */
  datatype Node<+N> =
    | NullNode
    | BoolNode(b: bool)
    | StringNode(s: string)
    | NumberNode(n: N)
    | ArrayNode(ids: seq<nat>)
    | ObjectNode(keys: seq<string>, ids: seq<nat>)

  /** A number as read: the text serde writes for it, its exact decimal, and the token's kind. */
  datatype Number = Number(text: string, decimal: Decimal, integer: bool)

  class ReviewedJsonCursor {
    const raw: string
    var pos: nat
    var nodes: seq<Node<Number>>

    constructor (raw: string)
      ensures this.raw == raw && pos == 0 && nodes == []
    {
      this.raw := raw;
      pos := 0;
      nodes := [];
    }

    predicate Looks(c: char)
      reads this
    {
      At(raw, pos, c)
    }

    method Whitespace()
      requires pos <= |raw|
      modifies this`pos
      ensures pos == Skip(raw, old(pos))
    {
      while pos < |raw| && Blank(raw[pos])
        invariant pos <= |raw| && Skip(raw, pos) == Skip(raw, old(pos))
      {
        pos := pos + 1;
      }
    }

    /** Reads the string at the position: scans to its closing quote, then decodes it. */
    method Text() returns (r: Result<string>)
      requires pos <= |raw|
      modifies this`pos
      ensures r.Ok? <==> ReadString(raw, old(pos)).Some?
      ensures r.Ok? ==> ReadString(raw, old(pos)) == Some((r.value, pos))
    {
      hide Decode;
      if !Looks('"') {
        return Err(Invalid);
      }
      var start := pos;
      var p := start + 1;
      while true
        invariant start < p <= |raw| && StringEnd(raw, p) == StringEnd(raw, start + 1)
        decreases |raw| - p
      {
        if p == |raw| {
          return Err(Invalid);
        } else if raw[p] == '"' {
          p := p + 1;
          break;
        } else if raw[p] == '\\' {
          p := p + 2;
          if p > |raw| {
            return Err(Invalid);
          }
        } else {
          p := p + 1;
        }
      }
      pos := p;
      match Decode(raw[start + 1..p - 1])
      case None => return Err(Invalid);
      case Some(s) => return Ok(s);
    }

    method Literal(token: string) returns (ok: bool)
      requires pos <= |raw|
      modifies this`pos
      ensures ok == Occurs(raw, old(pos), token)
      ensures pos == if ok then old(pos) + |token| else old(pos)
    {
      ok := Occurs(raw, pos, token);
      if ok {
        pos := pos + |token|;
      }
    }

    method Add(node: Node<Number>) returns (id: nat)
      modifies this`nodes
      ensures id == old(|nodes|) && nodes == old(nodes) + [node]
    {
      id := |nodes|;
      nodes := nodes + [node];
    }
  }
}
