/** The list-building pieces of the editor's project view: splitting a path
    on a separator, choosing a free name for a new script or animator file,
    and the contents of a new animator file. */
module ProjectView {
  import opened Common
  import opened Yaml
  import opened Animators

  /** The longest prefix of `s` that holds no `ch`. */
  function Word(s: string, ch: char): (w: string)
    ensures |w| <= |s| && w == s[..|w|]
    ensures ch !in w
    ensures |w| < |s| ==> s[|w|] == ch
  {
    if s == [] || s[0] == ch then [] else [s[0]] + Word(s[1..], ch)
  }

  /** Reference definition of a split: the maximal runs of characters
      other than `ch`, in order. */
  function Tokens(s: string, ch: char): seq<string>
    decreases |s|
  {
    if s == [] then []
    else if s[0] == ch then Tokens(s[1..], ch)
    else var w := Word(s, ch); [w] + Tokens(s[|w|..], ch)
  }

  /** `s` with every `ch` removed. */
  function Remove(s: string, ch: char): string
  {
    if s == [] then [] else (if s[0] == ch then [] else [s[0]]) + Remove(s[1..], ch)
  }

  function Concat(ts: seq<string>): string
  {
    if ts == [] then [] else ts[0] + Concat(ts[1..])
  }

  /** ImGuiEditorProjectView::split: walks the string once with a buffer
      `next` that collects characters until a separator closes it. */
  method Split(str: string, ch: char) returns (result: seq<string>)
    ensures result == Tokens(str, ch)
  {
    var next: string := [];
    result := [];
    var i := 0;
    assert next + str[i..] == str;
    while i < |str|
      invariant 0 <= i <= |str|
      invariant ch !in next
      invariant result + Tokens(next + str[i..], ch) == Tokens(str, ch)
    {
      var it := str[i];
      SplitStep(result, next, str, i, ch);
      if it == ch {
        if next != [] {
          result := result + [next];
          next := [];
        }
      } else {
        next := next + [it];
      }
      i := i + 1;
    }
    if next != [] {
      TokensAfterWord(next, [], ch);
      assert next + [] == next;
      result := result + [next];
    }
    assert str[i..] == [] && next + [] == next;
  }

  /** One step of the scan: a separator closes the buffer (a non-empty
      buffer becomes a token), any other character extends it; the tokens
      still to come are unchanged. */
  lemma SplitStep(result: seq<string>, next: string, str: string, i: nat, ch: char)
    requires i < |str| && ch !in next
    ensures str[i] == ch && next != [] ==> (result + [next]) + Tokens([] + str[i + 1..], ch) == result + Tokens(next + str[i..], ch)
    ensures str[i] == ch && next == [] ==> result + Tokens(next + str[i + 1..], ch) == result + Tokens(next + str[i..], ch)
    ensures str[i] != ch ==> ch !in next + [str[i]] && result + Tokens((next + [str[i]]) + str[i + 1..], ch) == result + Tokens(next + str[i..], ch)
  {
    var rest := str[i..];
    assert rest == [str[i]] + str[i + 1..];
    if str[i] == ch {
      assert [] + str[i + 1..] == str[i + 1..];
      assert Tokens(rest, ch) == Tokens(str[i + 1..], ch);
      if next != [] {
        TokensAfterWord(next, rest, ch);
      } else {
        assert next + rest == rest && next + str[i + 1..] == str[i + 1..];
      }
    } else {
      assert (next + [str[i]]) + str[i + 1..] == next + rest;
    }
  }

  /** A non-empty run without separators is one token, whatever follows a
      separator after it. */
  lemma {:induction false} TokensAfterWord(w: string, rest: string, ch: char)
    requires w != [] && ch !in w
    requires rest == [] || rest[0] == ch
    ensures Tokens(w + rest, ch) == [w] + Tokens(rest, ch)
  {
    WordOfPrefix(w, rest, ch);
    assert (w + rest)[|w|..] == rest;
  }

  lemma {:induction false} WordOfPrefix(w: string, rest: string, ch: char)
    requires ch !in w
    requires rest == [] || rest[0] == ch
    ensures Word(w + rest, ch) == w
    decreases |w|
  {
    if w == [] {
      assert w + rest == rest;
    } else {
      assert (w + rest)[1..] == w[1..] + rest;
      WordOfPrefix(w[1..], rest, ch);
    }
  }

  /** No token is empty. */
  lemma {:induction false} TokensNonEmpty(s: string, ch: char)
    ensures forall t :: t in Tokens(s, ch) ==> t != []
    decreases |s|
  {
    if s != [] {
      if s[0] == ch {
        TokensNonEmpty(s[1..], ch);
      } else {
        TokensNonEmpty(s[|Word(s, ch)|..], ch);
      }
    }
  }

  /** No token contains the separator. */
  lemma {:induction false} TokensWithoutSeparator(s: string, ch: char)
    ensures forall t :: t in Tokens(s, ch) ==> ch !in t
    decreases |s|
  {
    if s != [] {
      if s[0] == ch {
        TokensWithoutSeparator(s[1..], ch);
      } else {
        TokensWithoutSeparator(s[|Word(s, ch)|..], ch);
      }
    }
  }

  lemma {:induction false} RemoveAppend(a: string, b: string, ch: char)
    ensures Remove(a + b, ch) == Remove(a, ch) + Remove(b, ch)
    decreases |a|
  {
    if a == [] {
      assert a + b == b;
    } else {
      assert (a + b)[1..] == a[1..] + b;
      RemoveAppend(a[1..], b, ch);
    }
  }

  lemma {:induction false} RemoveNothing(s: string, ch: char)
    requires ch !in s
    ensures Remove(s, ch) == s
    decreases |s|
  {
    if s != [] {
      RemoveNothing(s[1..], ch);
      assert s == [s[0]] + s[1..];
    }
  }

  /** Joining the tokens gives the input with every separator removed, in
      the original order. */
  lemma {:induction false} TokensConcat(s: string, ch: char)
    ensures Concat(Tokens(s, ch)) == Remove(s, ch)
    decreases |s|
  {
    if s != [] {
      if s[0] == ch {
        TokensConcat(s[1..], ch);
      } else {
        var w := Word(s, ch);
        var rest := s[|w|..];
        TokensConcat(rest, ch);
        assert s == w + rest;
        RemoveAppend(w, rest, ch);
        RemoveNothing(w, ch);
        assert Tokens(s, ch)[1..] == Tokens(rest, ch);
      }
    }
  }

  /** Only separators (or nothing at all) give no tokens. */
  lemma {:induction false} TokensEmptyIff(s: string, ch: char)
    ensures Tokens(s, ch) == [] <==> forall k :: 0 <= k < |s| ==> s[k] == ch
    decreases |s|
  {
    if s != [] {
      if s[0] == ch {
        TokensEmptyIff(s[1..], ch);
        assert forall k :: 1 <= k < |s| ==> s[k] == s[1..][k - 1];
      }
    }
  }

  /** The naming loop for a new `script<i>.lua` or `anim<i>.animator`: `taken`
      is the set of indices whose file already exists in the target folder. */
  method FreeFileIndex(taken: set<int>) returns (i: int)
    ensures 0 <= i && i !in taken
    ensures forall j :: 0 <= j < i ==> j in taken
  {
    i := 0;
    while i in taken
      invariant 0 <= i
      invariant forall j :: 0 <= j < i ==> j in taken
      decreases |taken| - i
    {
      PrefixWithin(i + 1, taken);
      i := i + 1;
    }
  }

  /** If `0 .. n-1` are all taken, there are at least `n` taken indices. */
  lemma {:induction false} PrefixWithin(n: nat, taken: set<int>)
    requires forall j :: 0 <= j < n ==> j in taken
    ensures n <= |taken|
  {
    if n > 0 {
      var smaller := taken - {n - 1};
      assert forall j :: 0 <= j < n - 1 ==> j in smaller;
      PrefixWithin(n - 1, smaller);
    }
  }

  /** The document written for a new `anim<i>.animator`: the three lists
      of an animator, each an empty sequence. */
  function BlankAnimator(): (doc: Node)
    ensures doc == EncodeAnimatorFile(AnimatorFile([], [], [], []))
  {
    Mapping(map[K_STATES := Sequence([]), K_TRANSITIONS := Sequence([]), K_VARIABLES := Sequence([])])
  }

  /** A new animator file reads back as an animator with no states, no
      transitions and no variables. */
  lemma BlankAnimatorIsEmpty()
    ensures DecodeAnimatorFile(BlankAnimator()) == Ok(AnimatorFile([], [], [], []))
  {
    RoundTrip(AnimatorFile([], [], [], []));
  }
}
