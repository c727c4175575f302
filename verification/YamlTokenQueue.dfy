/** The token queue in its array, with room given up at the front and made in the middle. */
module YamlTokenQueue {
  import opened Prelude
  import opened YamlEvents

  class TokenQueue {
    var tokens: array<Token>
    var len: nat
    var head: nat
    var parsed: nat
    ghost var past: seq<Token>

    ghost predicate Valid()
      reads this
    {
      head <= len <= tokens.Length && parsed == |past|
    }

    ghost function Contents(): seq<Token>
      reads this, tokens
      requires Valid()
    {
      tokens[head..len]
    }

    constructor ()
      ensures Valid() && Contents() == [] && past == [] && fresh(tokens)
    {
      tokens := new Token[0];
      len, head, parsed, past := 0, 0, 0, [];
    }

    /** The queue moves to the front of a full array. */
    method Compact()
      requires Valid()
      modifies this`len, this`head, tokens
      ensures Valid() && Contents() == old(Contents())
      ensures len < tokens.Length || head == 0
    {
      if head > 0 && len == tokens.Length {
        if head != len {
          forall i | 0 <= i < len - head {
            tokens[i] := tokens[head + i];
          }
        }
        len, head := len - head, 0;
      }
    }

    /** `append`: how much an array grows is the runtime's choice. */
    method Append(t: Token)
      requires Valid()
      modifies this`len, this`tokens, tokens
      ensures Valid() && Contents() == old(Contents()) + [t]
      ensures tokens == old(tokens) || fresh(tokens)
    {
      if len == tokens.Length {
        var spare :| 0 <= spare;
        var more := new Token[len + 1 + spare];
        forall i | 0 <= i < len {
          more[i] := tokens[i];
        }
        tokens := more;
      }
      tokens[len] := t;
      len := len + 1;
    }

    /** Insertion at a position of the queue, or at its end when the position is negative. */
    method Insert(pos: int, t: Token)
      requires Valid() && pos <= |Contents()|
      modifies this`len, this`head, this`tokens, tokens
      ensures Valid() && (tokens == old(tokens) || fresh(tokens))
      ensures Contents() ==
        if pos < 0 then old(Contents()) + [t] else old(Contents())[..pos] + [t] + old(Contents())[pos..]
    {
      Compact();
      Append(t);
      if pos < 0 {
        return;
      }
      ghost var was, q := old(Contents()), Contents();
      Shift(pos, t);
      Shifted(was, q, Contents(), pos, t);
    }

    /** Everything from the position on moves up by one, over the last place. */
    method Shift(pos: nat, t: Token)
      requires Valid() && pos < |Contents()|
      modifies tokens
      ensures Valid() && IsShift(old(Contents()), Contents(), pos, t)
    {
      var at := head + pos;
      forall i | at < i < len {
        tokens[i] := tokens[i - 1];
      }
      tokens[at] := t;
    }

    /** The head goes to the parser. */
    method Skip() returns (t: Token)
      requires Valid() && |Contents()| > 0
      modifies this`head, this`parsed, this`past
      ensures Valid() && t == old(Contents()[0]) && Contents() == old(Contents())[1..] && past == old(past) + [t]
    {
      t := tokens[head];
      past := past + [t];
      parsed := parsed + 1;
      head := head + 1;
    }
  }

  ghost predicate IsShift(q: seq<Token>, r: seq<Token>, pos: nat, t: Token) {
    && pos < |q| == |r| && r[pos] == t
    && (forall i | 0 <= i < pos :: r[i] == q[i])
    && (forall i | pos < i < |r| :: r[i] == q[i - 1])
  }

  lemma Shifted(was: seq<Token>, q: seq<Token>, r: seq<Token>, pos: nat, t: Token)
    requires q == was + [t] && IsShift(q, r, pos, t)
    ensures r == was[..pos] + [t] + was[pos..]
  {
    forall i | pos < i < |r|
      ensures r[i] == was[pos..][i - pos - 1]
    {
      assert r[i] == q[i - 1] == was[i - 1];
    }
  }
}
