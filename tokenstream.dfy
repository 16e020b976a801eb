/** The Python parser's token buffer: a growable array of tokens with a count of the
    tokens stored and a read cursor. The lexer appends through `next`, the parser
    reads through `advance` and `nextToken` and backtracks with `rewind`. */
module TokenStream {

  /** A token: its kind and the source range it covers. */
  datatype Token = Token(kind: int, begin: int, end: int)
  {
    predicate Is(k: int) { k == kind }

    /** `isNot` is exactly the negation of `is`. */
    predicate IsNot(k: int): (r: bool)
      ensures r <==> !Is(k)
    {
      k != kind
    }
  }

  /** The capacity after one growth step: 1024 for an empty buffer, then times four. */
  function Grown(c: nat): nat
  {
    (if c == 0 then 1024 else c) * 4
  }

  /** The capacities a buffer that only grows through `Grown` can have: none yet,
      or 4096 times a power of four. */
  predicate IsCapacity(c: nat)
    decreases c
  {
    c == 0 || c == 4096 || (c > 4096 && c % 4 == 0 && IsCapacity(c / 4))
  }

  /** Growth keeps the capacity of that form and makes room for at least one more token. */
  lemma GrownIsCapacity(c: nat)
    requires IsCapacity(c)
    ensures IsCapacity(Grown(c)) && Grown(c) > c && Grown(c) >= 4096
  {
    if c != 0 {
      assert Grown(c) / 4 == c;
    }
  }

  class TokenStreamBase {
    var buffer: array<Token>
    var bufferSize: nat
    var index: int
    var count: nat

    ghost predicate Valid()
      reads this
    {
      buffer.Length == bufferSize && count <= bufferSize && IsCapacity(bufferSize)
    }

    /** The tokens stored so far. */
    function Tokens(): seq<Token>
      reads this, buffer
      requires Valid()
    {
      buffer[..count]
    }

    /** A new stream holds no tokens and no buffer. */
    constructor ()
      ensures Valid() && bufferSize == 0 && index == 0 && count == 0
    {
      buffer := new Token[0];
      bufferSize := 0;
      index := 0;
      count := 0;
    }

    /** `reset()`: forgets the tokens, keeps the buffer. */
    method Reset()
      requires Valid()
      modifies this
      ensures Valid() && index == 0 && count == 0
      ensures buffer == old(buffer) && bufferSize == old(bufferSize)
    {
      index := 0;
      count := 0;
    }

    /** `tokenIndex()`: the position of the token read last, or 0 before any. */
    function TokenIndex(): (i: int)
      reads this
      ensures index != 0 ==> i + 1 == index
      ensures index == 0 ==> i == 0
    {
      if index != 0 then index - 1 else index
    }

    /** `rewind(i)`: moves the cursor and nothing else. */
    method Rewind(i: int)
      requires Valid()
      modifies this
      ensures Valid() && index == i
      ensures buffer == old(buffer) && bufferSize == old(bufferSize) && count == old(count)
    {
      index := i;
    }

    /** `token(i)`. */
    function TokenAt(i: int): Token
      reads this, buffer
      requires 0 <= i < buffer.Length
    {
      buffer[i]
    }

    /** A write through the reference `token(i)` (or `next()`, `advance()`) returns. */
    method SetToken(i: int, t: Token)
      requires Valid() && 0 <= i < buffer.Length
      modifies buffer
      ensures Valid() && buffer[i] == t
      ensures forall j :: 0 <= j < buffer.Length && j != i ==> buffer[j] == old(buffer[j])
    {
      buffer[i] := t;
    }

    /** `nextToken()`: the kind at the cursor; the cursor moves past it. */
    method NextToken() returns (kind: int)
      requires Valid() && 0 <= index < buffer.Length
      modifies this
      ensures buffer == old(buffer) && bufferSize == old(bufferSize) && count == old(count)
      ensures Valid() && kind == buffer[old(index)].kind && index == old(index) + 1
      ensures TokenIndex() == old(index)
    {
      kind := buffer[index].kind;
      index := index + 1;
    }

    /** The `realloc` in `next()` and `advance()`: a buffer `Grown` times larger that
        starts with the old buffer's tokens. */
    method Grow()
      requires Valid()
      modifies this
      ensures Valid() && fresh(buffer) && bufferSize == Grown(old(bufferSize))
      ensures buffer[..old(bufferSize)] == old(buffer[..])
      ensures index == old(index) && count == old(count)
    {
      var n := if bufferSize == 0 then 1024 else bufferSize;
      n := n * 4;
      GrownIsCapacity(bufferSize);
      var b := new Token[n](_ => Token(0, 0, 0));
      for i := 0 to buffer.Length
        invariant unchanged(this) && n > buffer.Length
        invariant b[..i] == buffer[..i]
      {
        b[i] := buffer[i];
      }
      buffer := b;
      bufferSize := n;
    }

    /** `next()`: the slot after the last token, for the lexer to fill; the buffer
        grows when it is full. The cursor does not move. */
    method Next() returns (slot: nat)
      requires Valid()
      modifies this
      ensures Valid() && slot == old(count) && slot < buffer.Length
      ensures count == old(count) + 1 && index == old(index)
      ensures bufferSize == if old(count) == old(bufferSize) then Grown(old(bufferSize)) else old(bufferSize)
      ensures old(count) < old(bufferSize) ==> buffer == old(buffer)
      ensures Tokens()[..old(count)] == old(Tokens())
    {
      if count == bufferSize {
        Grow();
      }
      slot := count;
      count := count + 1;
    }

    /** `advance()`: the token at the cursor, which moves past it; at the end of the
        stored tokens the slot is a new one, counted as `next()` would. Past the end
        the source reads wherever the cursor points, so the cursor must lie inside
        the buffer there. */
    method Advance() returns (slot: nat)
      requires Valid() && index >= 0 && (index > count ==> index < bufferSize)
      modifies this
      ensures Valid() && slot == old(index) && slot < buffer.Length && index == old(index) + 1
      ensures count == if old(index) == old(count) then old(count) + 1 else old(count)
      ensures bufferSize ==
        if old(index) == old(count) == old(bufferSize) then Grown(old(bufferSize)) else old(bufferSize)
      ensures old(index) != old(count) || old(count) < old(bufferSize) ==> buffer == old(buffer)
      ensures Tokens()[..old(count)] == old(Tokens())
      ensures old(index) <= old(count) ==> index <= count
      ensures TokenIndex() == slot
    {
      if index == count {
        if count == bufferSize {
          Grow();
        }
        count := count + 1;
      }
      slot := index;
      index := index + 1;
    }
  }
}
