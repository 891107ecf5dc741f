/** The generic list helpers of tokenizer.js, `filter` and `map`, with the
    whitespace condition the program filters lexemes by. The source writes them
    as recursions that push into an accumulator array; here they are loops that
    extend an accumulator sequence, specified by the recursive functions `Kept`
    and by an element-wise statement. */
module Pipeline {

  /** The characters of the whitespace pattern `/\t|\n|\r| /`. */
  predicate IsBlank(c: char) { c == '\t' || c == '\n' || c == '\r' || c == ' ' }

  /** The same test on one character. */
  predicate NotBlankChar(c: char) { !IsBlank(c) }

  /** The filter condition: the lexeme contains no tab, newline, return or space. */
  predicate NotBlank(token: string)
  {
    forall k :: 0 <= k < |token| ==> !IsBlank(token[k])
  }

  /** The order-preserving subsequence of `tokens` on which `condition` holds. */
  function Kept<T>(condition: T -> bool, tokens: seq<T>): seq<T>
  {
    if tokens == [] then []
    else (if condition(tokens[0]) then [tokens[0]] else []) + Kept(condition, tokens[1..])
  }

  /** `filter`: keep, in order, the tokens on which `condition` holds. */
  method Filter<T>(condition: T -> bool, tokens: seq<T>) returns (data: seq<T>)
    ensures data == Kept(condition, tokens)
    ensures forall k :: 0 <= k < |data| ==> condition(data[k])
  {
    data := [];
    var index := 0;
    while index < |tokens|
      invariant index <= |tokens|
      invariant data + Kept(condition, tokens[index..]) == Kept(condition, tokens)
    {
      assert tokens[index..][1..] == tokens[index + 1..];
      if condition(tokens[index]) {
        data := data + [tokens[index]];
      }
      index := index + 1;
    }
    assert tokens[index..] == [];
    KeptSatisfies(condition, tokens);
  }

  /** `map`: the parallel array of `condition` applied to each token. */
  method Map<T, U>(condition: T -> U, tokens: seq<T>) returns (tokenStr: seq<U>)
    ensures |tokenStr| == |tokens|
    ensures forall k :: 0 <= k < |tokens| ==> tokenStr[k] == condition(tokens[k])
  {
    tokenStr := [];
    var index := 0;
    while index < |tokens|
      invariant index <= |tokens|
      invariant |tokenStr| == index
      invariant forall k :: 0 <= k < index ==> tokenStr[k] == condition(tokens[k])
    {
      tokenStr := tokenStr + [condition(tokens[index])];
      index := index + 1;
    }
  }

  /** Everything kept satisfies the condition. */
  lemma {:induction false} KeptSatisfies<T>(condition: T -> bool, tokens: seq<T>)
    ensures forall k :: 0 <= k < |Kept(condition, tokens)| ==> condition(Kept(condition, tokens)[k])
  {
    if tokens != [] {
      KeptSatisfies(condition, tokens[1..]);
    }
  }

  /** An element is kept exactly when it occurs in the input and satisfies the condition. */
  lemma {:induction false} KeptMembers<T>(condition: T -> bool, tokens: seq<T>, x: T)
    ensures x in Kept(condition, tokens) <==> x in tokens && condition(x)
  {
    if tokens != [] {
      KeptMembers(condition, tokens[1..], x);
      assert tokens == [tokens[0]] + tokens[1..];
    }
  }

  /** Filtering distributes over concatenation, so the relative order of kept
      elements is the order of the input. */
  lemma {:induction false} KeptAppend<T>(condition: T -> bool, a: seq<T>, b: seq<T>)
    ensures Kept(condition, a + b) == Kept(condition, a) + Kept(condition, b)
  {
    if a == [] {
      assert a + b == b;
    } else {
      var head := if condition(a[0]) then [a[0]] else [];
      assert (a + b)[0] == a[0] && (a + b)[1..] == a[1..] + b;
      assert Kept(condition, a + b) == head + Kept(condition, a[1..] + b);
      KeptAppend(condition, a[1..], b);
      assert head + (Kept(condition, a[1..]) + Kept(condition, b))
          == (head + Kept(condition, a[1..])) + Kept(condition, b);
    }
  }

  /** Nothing is dropped when every element satisfies the condition, and the
      result is never longer than the input. */
  lemma {:induction false} KeptBounds<T>(condition: T -> bool, tokens: seq<T>)
    ensures |Kept(condition, tokens)| <= |tokens|
    ensures (forall k :: 0 <= k < |tokens| ==> condition(tokens[k])) ==> Kept(condition, tokens) == tokens
  {
    if tokens != [] {
      KeptBounds(condition, tokens[1..]);
      assert (forall k :: 0 <= k < |tokens| ==> condition(tokens[k])) ==>
        (forall k :: 0 <= k < |tokens[1..]| ==> condition(tokens[1..][k]));
      assert tokens == [tokens[0]] + tokens[1..];
    }
  }
}
