/**
 * The word tokenizer: the host's markup split on single ' ' characters,
 * as JavaScript's `split(" ")` does. Consecutive separators yield empty
 * tokens; nothing is collapsed or trimmed.
 */
module Tokenizer {
  import opened Seqs

  /** The number of separators in s. */
  function Spaces(s: string): nat
  {
    multiset(s)[' ']
  }

  /** s with every separator removed, the other characters in order. */
  function Unspaced(s: string): string
  {
    if |s| == 0 then "" else (if s[0] == ' ' then "" else [s[0]]) + Unspaced(s[1..])
  }

  /** The position of the first separator in s, or |s| when there is none. */
  function FirstSpace(s: string): (i: nat)
    ensures i <= |s|
    ensures i < |s| ==> s[i] == ' '
    ensures forall k :: 0 <= k < i ==> s[k] != ' '
  {
    if |s| == 0 || s[0] == ' ' then 0 else 1 + FirstSpace(s[1..])
  }

  /** No token contains a separator. */
  predicate NoSpaces(tokens: seq<string>)
  {
    forall k :: 0 <= k < |tokens| ==> ' ' !in tokens[k]
  }

  /** `s.split(" ")`: the runs between separators, empty runs included. */
  function Tokenize(s: string): (tokens: seq<string>)
    ensures |tokens| >= 1
    ensures NoSpaces(tokens)
    decreases |s|
  {
    var i := FirstSpace(s);
    assert forall c :: c in s[..i] ==> c != ' ';
    if i == |s| then [s] else [s[..i]] + Tokenize(s[i + 1..])
  }

  /** The tokens with one separator between neighbours and none at either end. */
  function Join(tokens: seq<string>): string
  {
    if |tokens| == 0 then ""
    else if |tokens| == 1 then tokens[0]
    else Join(tokens[..|tokens| - 1]) + " " + tokens[|tokens| - 1]
  }

  lemma {:induction false} JoinCons(t: string, ts: seq<string>)
    requires |ts| >= 1
    ensures Join([t] + ts) == t + " " + Join(ts)
    decreases |ts|
  {
    var n := |ts|;
    if n == 1 {
      assert ([t] + ts)[..1] == [t];
    } else {
      JoinCons(t, ts[..n - 1]);
      assert ([t] + ts)[..n] == [t] + ts[..n - 1];
    }
  }

  /** Joining the tokens gives back the content. */
  lemma {:induction false} JoinTokenize(s: string)
    ensures Join(Tokenize(s)) == s
    decreases |s|
  {
    var i := FirstSpace(s);
    if i < |s| {
      var rest := s[i + 1..];
      JoinTokenize(rest);
      JoinCons(s[..i], Tokenize(rest));
      SplitAt(s, i);
    }
  }

  /** Tokenizing a join of space-free tokens gives back the tokens. */
  lemma {:induction false} TokenizeJoin(tokens: seq<string>)
    requires |tokens| >= 1
    requires NoSpaces(tokens)
    ensures Tokenize(Join(tokens)) == tokens
    decreases |tokens|
  {
    var t := tokens[0];
    var s := Join(tokens);
    if |tokens| == 1 {
      assert FirstSpace(s) == |t| by {
        assert forall k :: 0 <= k < |t| ==> t[k] in t;
      }
    } else {
      var rest := tokens[1..];
      assert tokens == [t] + rest;
      JoinCons(t, rest);
      TokenizeJoin(rest);
      assert FirstSpace(s) == |t| by {
        assert forall k :: 0 <= k < |t| ==> s[k] == t[k] && t[k] in t;
        assert s[|t|] == ' ';
      }
      assert s[..|t|] == t;
      assert s[|t| + 1..] == Join(rest);
    }
  }

  /** There is one token more than there are separators. */
  lemma {:induction false} TokenCount(s: string)
    ensures |Tokenize(s)| == Spaces(s) + 1
    decreases |s|
  {
    var i := FirstSpace(s);
    assert ' ' !in multiset(s[..i]) by {
      assert forall c :: c in s[..i] ==> c != ' ';
    }
    if i < |s| {
      TokenCount(s[i + 1..]);
      assert s == s[..i] + [' '] + s[i + 1..];
      assert multiset(s) == multiset(s[..i]) + multiset{' '} + multiset(s[i + 1..]);
    } else {
      assert s[..i] == s;
    }
  }

  lemma {:induction false} UnspacedAppend(a: string, b: string)
    ensures Unspaced(a + b) == Unspaced(a) + Unspaced(b)
    decreases |a|
  {
    if |a| > 0 {
      UnspacedAppend(a[1..], b);
      assert (a + b)[1..] == a[1..] + b;
    } else {
      assert a + b == b;
    }
  }

  lemma {:induction false} UnspacedNoSpace(t: string)
    requires ' ' !in t
    ensures Unspaced(t) == t
    decreases |t|
  {
    if |t| > 0 {
      assert t[0] in t;
      assert forall c :: c in t[1..] ==> c in t;
      UnspacedNoSpace(t[1..]);
    }
  }

  /** Removing separators around one separator that follows a space-free run. */
  lemma UnspacedAtSeparator(t: string, rest: string)
    requires ' ' !in t
    ensures Unspaced(t + " " + rest) == t + Unspaced(rest)
  {
    UnspacedAppend(t, " " + rest);
    assert Unspaced(" " + rest) == Unspaced(rest) by {
      assert (" " + rest)[1..] == rest;
    }
    assert t + " " + rest == t + (" " + rest);
    UnspacedNoSpace(t);
  }

  /** The tokens, concatenated, are the content's non-separator characters in order. */
  lemma {:induction false} TokensAreUnspaced(s: string)
    ensures Flatten(Tokenize(s)) == Unspaced(s)
    decreases |s|
  {
    var i := FirstSpace(s);
    var t := s[..i];
    assert ' ' !in t by {
      assert forall c :: c in t ==> c != ' ';
    }
    if i < |s| {
      var rest := s[i + 1..];
      var tail := Tokenize(rest);
      assert Tokenize(s) == [t] + tail;
      TokensAreUnspaced(rest);
      FlattenCons(t, tail);
      SplitAt(s, i);
      UnspacedAtSeparator(t, rest);
    } else {
      assert t == s;
      UnspacedNoSpace(t);
      assert Tokenize(s) == [s];
      assert Flatten([s]) == Flatten([s][..0]) + s;
    }
  }

  /** A join is empty only when it joins a single empty token. */
  lemma JoinEmpty(tokens: seq<string>)
    requires |tokens| >= 1
    ensures Join(tokens) == "" <==> tokens == [""]
  {
    if |tokens| > 1 {
      assert |Join(tokens)| >= 1;
    }
  }

  /** `"ab cd"` gives two tokens. */
  lemma TokenizeTwoWords()
    ensures Tokenize("ab cd") == ["ab", "cd"]
  {
    assert FirstSpace("cd") == 2;
    assert Tokenize("cd") == ["cd"];
    assert FirstSpace("ab cd") == 2;
    assert "ab cd"[..2] == "ab" && "ab cd"[3..] == "cd";
  }

  /** Two consecutive separators give an empty middle token. */
  lemma TokenizeDoubleSpace()
    ensures Tokenize("a  b") == ["a", "", "b"]
  {
    assert FirstSpace("b") == 1;
    assert Tokenize("b") == ["b"];
    assert FirstSpace(" b") == 0;
    assert " b"[..0] == "" && " b"[1..] == "b";
    assert Tokenize(" b") == ["", "b"];
    assert FirstSpace("a  b") == 1;
    assert "a  b"[..1] == "a" && "a  b"[2..] == " b";
  }
}
