/** Joining the command-line words into the text to speak
    (`TTSMain.concatenateArgs`). */
module Arguments {

  /** The words in order with one space between neighbours. */
  function Join(tokens: seq<string>): (text: string)
    decreases |tokens|
  {
    if |tokens| == 0 then ""
    else if |tokens| == 1 then tokens[0]
    else tokens[0] + " " + Join(tokens[1..])
  }

  /** Total number of characters in the words. */
  function SumLengths(tokens: seq<string>): (total: nat)
    decreases |tokens|
  {
    if tokens == [] then 0 else |tokens[0]| + SumLengths(tokens[1..])
  }

  /** Where the `k`-th word starts in the joined text. */
  function Start(tokens: seq<string>, k: nat): (offset: nat)
    requires k <= |tokens|
  {
    SumLengths(tokens[..k]) + k
  }

  /** Cuts `s` at every space, keeping empty pieces
      (Java's `s.split(" ", -1)`). */
  function Split(s: string): (r: seq<string>)
    ensures |r| >= 1
    decreases |s|
  {
    if s == [] then [""]
    else
      var rest := Split(s[1..]);
      if s[0] == ' ' then [""] + rest else [[s[0]] + rest[0]] + rest[1..]
  }

  predicate HasNoSpace(s: string) {
    forall i :: 0 <= i < |s| ==> s[i] != ' '
  }

  /** `concatenateArgs`: append each word, and a space after every word
      but the last, to a growing buffer. */
  method ConcatenateArgs(args: array<string>) returns (text: string)
    ensures text == Join(args[..])
  {
    text := "";
    for i := 0 to args.Length
      invariant i == 0 ==> text == ""
      invariant 0 < i ==> text == Join(args[..i]) + (if i < args.Length then " " else "")
    {
      if i > 0 {
        JoinSnoc(args[..i], args[i]);
        assert args[..i + 1] == args[..i] + [args[i]];
      }
      text := text + args[i];
      if i < args.Length - 1 {
        text := text + " ";
      }
    }
    assert args[..args.Length] == args[..];
  }

  /** No words give the empty text; one word comes back unchanged. */
  lemma JoinBaseCases(t: string)
    ensures Join([]) == ""
    ensures Join([t]) == t
  {
  }

  /** Appending a word to a non-empty list appends a space and the word. */
  lemma {:induction false} JoinSnoc(tokens: seq<string>, t: string)
    requires |tokens| >= 1
    ensures Join(tokens + [t]) == Join(tokens) + " " + t
    decreases |tokens|
  {
    if |tokens| > 1 {
      assert (tokens + [t])[1..] == tokens[1..] + [t];
      JoinSnoc(tokens[1..], t);
    }
  }

  /** The joined text is as long as the words plus one space between each
      pair of neighbours. */
  lemma {:induction false} JoinLength(tokens: seq<string>)
    requires |tokens| >= 1
    ensures |Join(tokens)| == SumLengths(tokens) + |tokens| - 1
    decreases |tokens|
  {
    if |tokens| > 1 {
      JoinLength(tokens[1..]);
    }
  }

  /** Every word appears, in order, at its offset in the joined text, and
      exactly one space follows each word but the last. */
  lemma {:induction false} JoinLayout(tokens: seq<string>, k: nat)
    requires k < |tokens|
    ensures Start(tokens, k) + |tokens[k]| <= |Join(tokens)|
    ensures Join(tokens)[Start(tokens, k)..Start(tokens, k) + |tokens[k]|] == tokens[k]
    ensures k < |tokens| - 1 ==> Start(tokens, k) + |tokens[k]| < |Join(tokens)|
    ensures k < |tokens| - 1 ==> Join(tokens)[Start(tokens, k) + |tokens[k]|] == ' '
    ensures k == |tokens| - 1 ==> Start(tokens, k) + |tokens[k]| == |Join(tokens)|
    decreases |tokens|
  {
    var j := Join(tokens);
    if |tokens| == 1 {
      assert tokens[..0] == [];
    } else if k == 0 {
      assert tokens[..0] == [];
      assert j == tokens[0] + (" " + Join(tokens[1..]));
    } else {
      var rest := tokens[1..];
      JoinLayout(rest, k - 1);
      assert tokens[..k] == [tokens[0]] + rest[..k - 1];
      assert tokens[..k][1..] == rest[..k - 1];
      assert Start(tokens, k) == |tokens[0]| + 1 + Start(rest, k - 1);
      var off := |tokens[0]| + 1;
      assert j == (tokens[0] + " ") + Join(rest);
      assert |tokens[0] + " "| == off;
      if k < |tokens| - 1 {
        JoinLength(rest);
      }
    }
  }

  /** Splitting the joined text at spaces gives back the words, provided
      there is at least one word and no word contains a space. */
  lemma {:induction false} SplitJoin(tokens: seq<string>)
    requires |tokens| >= 1
    requires forall k :: 0 <= k < |tokens| ==> HasNoSpace(tokens[k])
    ensures Split(Join(tokens)) == tokens
    decreases |tokens|
  {
    if |tokens| == 1 {
      SplitWord(tokens[0], "", false);
    } else {
      SplitWord(tokens[0], Join(tokens[1..]), true);
      SplitJoin(tokens[1..]);
    }
  }

  /** A word without spaces, followed by a space and more text or by nothing,
      splits into that word and the pieces of the rest. */
  lemma {:induction false} SplitWord(w: string, tail: string, sep: bool)
    requires HasNoSpace(w)
    requires !sep ==> tail == ""
    ensures sep ==> Split(w + " " + tail) == [w] + Split(tail)
    ensures !sep ==> Split(w) == [w]
    decreases |w|
  {
    if w == [] {
      if sep {
        assert w + " " + tail == " " + tail;
        assert (" " + tail)[1..] == tail;
      }
    } else {
      SplitWord(w[1..], tail, sep);
      if sep {
        assert (w + " " + tail)[1..] == w[1..] + " " + tail;
        assert [w[0]] + w[1..] == w;
      } else {
        assert [w[0]] + w[1..] == w;
      }
    }
  }

  /** Joining the pieces of any text with spaces restores the text. */
  lemma {:induction false} JoinSplit(s: string)
    ensures Join(Split(s)) == s
    decreases |s|
  {
    if s != [] {
      var rest := Split(s[1..]);
      JoinSplit(s[1..]);
      if s[0] == ' ' {
        assert Join([""] + rest) == " " + Join(rest) by {
          assert ([""] + rest)[1..] == rest;
        }
      } else if |rest| == 1 {
        assert [s[0]] + s[1..] == s;
      } else {
        var p := [[s[0]] + rest[0]] + rest[1..];
        assert p[1..] == rest[1..];
        assert Join(p) == [s[0]] + rest[0] + " " + Join(rest[1..]);
        assert Join(rest) == rest[0] + " " + Join(rest[1..]);
        assert [s[0]] + s[1..] == s;
      }
    }
  }
}
