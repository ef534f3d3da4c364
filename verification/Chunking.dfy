/** Overlapping token windows (agentpick_data/src/hf_vectorizer/parsing.py). The tokenizer
    is not modelled: the text is given by its tokens, and `decode` turns a window back
    into text. */
module Chunking {
  import opened Text

  // ----- Termination -----

  /** Where the window of iteration `k` starts, as long as the loop goes on. */
  function StartAt(maxTokens: nat, overlap: int, k: nat): int {
    if k == 0 then 0 else StartAt(maxTokens, overlap, k - 1) + maxTokens - overlap
  }

  /** Iteration `k` ends the loop: nothing is left, or the window reaches the end. */
  predicate Exits(n: nat, maxTokens: nat, overlap: int, k: nat) {
    StartAt(maxTokens, overlap, k) >= n || StartAt(maxTokens, overlap, k) + maxTokens >= n
  }

  /** What a caller has to check: one window is enough, or the window advances. */
  predicate Terminates(n: nat, maxTokens: nat, overlap: int) {
    n <= maxTokens || overlap < maxTokens
  }

  lemma {:induction false} StartBounds(maxTokens: nat, overlap: int, k: nat)
    ensures overlap < maxTokens ==> StartAt(maxTokens, overlap, k) >= k
    ensures overlap >= maxTokens ==> StartAt(maxTokens, overlap, k) <= 0
  {
    if k > 0 {
      StartBounds(maxTokens, overlap, k - 1);
    }
  }

  /** The loop ends exactly under that condition. */
  lemma TerminatesIffChecked(n: nat, maxTokens: nat, overlap: int)
    ensures (exists k: nat :: Exits(n, maxTokens, overlap, k)) <==> Terminates(n, maxTokens, overlap)
  {
    if n <= maxTokens {
      assert Exits(n, maxTokens, overlap, 0);
    } else if overlap < maxTokens {
      StartBounds(maxTokens, overlap, n);
      assert Exits(n, maxTokens, overlap, n);
    } else {
      forall k: nat ensures !Exits(n, maxTokens, overlap, k) {
        StartBounds(maxTokens, overlap, k);
      }
    }
  }

  // ----- Windows and chunks -----

  /** Ten tokens, windows of four, overlap four: the loop stays where it is. */
  lemma OverlapTooLarge(k: nat)
    ensures !Exits(10, 4, 4, k)
  {
    TerminatesIffChecked(10, 4, 4);
  }

  function Windows<T>(tokens: seq<T>, maxTokens: nat, overlap: int, start: nat): seq<seq<T>>
    requires Terminates(|tokens|, maxTokens, overlap)
    decreases |tokens| - start
  {
    var end := start + maxTokens;
    if start >= |tokens| then []
    else if end >= |tokens| then [tokens[start..]]
    else [tokens[start..end]] + Windows(tokens, maxTokens, overlap, end - overlap)
  }

  function Texts<T>(windows: seq<seq<T>>, decode: seq<T> -> string): seq<string> {
    if windows == [] then []
    else
      var n := |windows| - 1;
      var before := Texts(windows[..n], decode);
      if Strip(decode(windows[n])) != "" then before + [decode(windows[n])] else before
  }

  lemma TextsNext<T>(windows: seq<seq<T>>, w: seq<T>, decode: seq<T> -> string)
    ensures Texts(windows + [w], decode) == Texts(windows, decode) + (if Strip(decode(w)) != "" then [decode(w)] else [])
  {
    assert (windows + [w])[..|windows|] == windows;
  }

  /** A chunk is the text of a window, and windows are dropped only for blank text. */
  lemma {:induction false} TextsMembers<T>(windows: seq<seq<T>>, decode: seq<T> -> string, text: string)
    ensures text in Texts(windows, decode) <==> Strip(text) != "" && exists w :: w in windows && decode(w) == text
  {
    if windows != [] {
      var n := |windows| - 1;
      TextsMembers(windows[..n], decode, text);
      assert windows == windows[..n] + [windows[n]];
    }
  }

  lemma WindowsNext<T>(tokens: seq<T>, maxTokens: nat, overlap: int, start: nat, done: seq<seq<T>>, all: seq<seq<T>>, w: seq<T>)
    requires Terminates(|tokens|, maxTokens, overlap) && start < |tokens|
    requires all == done + Windows(tokens, maxTokens, overlap, start)
    requires w == tokens[start..if start + maxTokens < |tokens| then start + maxTokens else |tokens|]
    ensures start + maxTokens >= |tokens| ==> all == done + [w]
    ensures start + maxTokens < |tokens| ==> all == done + [w] + Windows(tokens, maxTokens, overlap, start + maxTokens - overlap)
  {
    if start + maxTokens >= |tokens| {
      assert w == tokens[start..];
    }
  }

  method ChunkTextTokens<T>(tokens: seq<T>, maxTokens: nat, overlap: int, decode: seq<T> -> string) returns (chunks: seq<string>)
    requires Terminates(|tokens|, maxTokens, overlap)
    ensures chunks == Texts(Windows(tokens, maxTokens, overlap, 0), decode)
  {
    chunks := [];
    var start := 0;
    var n := |tokens|;
    ghost var done: seq<seq<T>> := [];
    ghost var all := Windows(tokens, maxTokens, overlap, 0);
    while start < n
      invariant 0 <= start
      invariant all == done + Windows(tokens, maxTokens, overlap, start)
      invariant chunks == Texts(done, decode)
      decreases n - start
    {
      var end := start + maxTokens;
      var chunkTokens := tokens[start..if end < n then end else n];
      WindowsNext(tokens, maxTokens, overlap, start, done, all, chunkTokens);
      TextsNext(done, chunkTokens, decode);
      var chunkText := decode(chunkTokens);
      if Strip(chunkText) != "" {
        chunks := chunks + [chunkText];
      } else {
        assert chunks + [] == chunks;
      }
      done := done + [chunkTokens];
      assert chunks == Texts(done, decode);
      if end >= n {
        return;
      }
      start := start + maxTokens - overlap;
    }
    NoWindows(tokens, maxTokens, overlap, start, done);
  }

  lemma NoWindows<T>(tokens: seq<T>, maxTokens: nat, overlap: int, start: nat, done: seq<seq<T>>)
    requires Terminates(|tokens|, maxTokens, overlap) && start >= |tokens|
    ensures done + Windows(tokens, maxTokens, overlap, start) == done
  {
  }

  // ----- Laws of the windows -----

  ghost predicate Regular(maxTokens: nat, overlap: nat) { overlap < maxTokens }

  /** The end of a full window is the beginning of the next one, which goes on. */
  ghost predicate Follows<T>(a: seq<T>, b: seq<T>, maxTokens: nat, overlap: nat) {
    |a| == maxTokens >= overlap && |b| > overlap && a[maxTokens - overlap..] == b[..overlap]
  }

  /** Windows are never too long, overlap exactly, and each brings something new. */
  ghost predicate Overlapping<T>(windows: seq<seq<T>>, maxTokens: nat, overlap: nat) {
    && (forall k :: 0 <= k < |windows| ==> 0 < |windows[k]| <= maxTokens)
    && forall k :: 1 <= k < |windows| ==> Follows(windows[k - 1], windows[k], maxTokens, overlap)
  }

  lemma OverlapCons<T>(first: seq<T>, rest: seq<seq<T>>, maxTokens: nat, overlap: nat)
    requires Overlapping(rest, maxTokens, overlap) && |rest| > 0
    requires Follows(first, rest[0], maxTokens, overlap) && maxTokens > 0
    ensures Overlapping([first] + rest, maxTokens, overlap)
  {
    var all := [first] + rest;
    forall k | 0 <= k < |all| ensures 0 < |all[k]| <= maxTokens {
      assert k > 0 ==> all[k] == rest[k - 1];
    }
    forall k | 1 <= k < |all| ensures Follows(all[k - 1], all[k], maxTokens, overlap) {
      assert all[k] == rest[k - 1];
      assert k > 1 ==> all[k - 1] == rest[k - 2] && Follows(rest[k - 2], rest[k - 1], maxTokens, overlap);
    }
  }

  lemma {:induction false} WindowsOverlap<T>(tokens: seq<T>, maxTokens: nat, overlap: nat, start: nat)
    requires Regular(maxTokens, overlap)
    ensures Overlapping(Windows(tokens, maxTokens, overlap, start), maxTokens, overlap)
    decreases |tokens| - start
  {
    var end := start + maxTokens;
    if end < |tokens| {
      var next := end - overlap;
      var first, rest := tokens[start..end], Windows(tokens, maxTokens, overlap, next);
      WindowsOverlap(tokens, maxTokens, overlap, next);
      assert rest[0][..overlap] == tokens[next..end] == first[maxTokens - overlap..];
      OverlapCons(first, rest, maxTokens, overlap);
    }
  }

  ghost predicate LongEnough<T>(windows: seq<seq<T>>, overlap: nat) {
    forall k :: 0 <= k < |windows| ==> |windows[k]| >= overlap
  }

  /** What windows add to their predecessors: everything after the shared prefix. */
  ghost function Additions<T>(windows: seq<seq<T>>, overlap: nat): seq<T>
    requires LongEnough(windows, overlap)
  {
    if windows == [] then [] else windows[0][overlap..] + Additions(windows[1..], overlap)
  }

  ghost function Merge<T>(windows: seq<seq<T>>, overlap: nat): seq<T>
    requires windows != [] ==> LongEnough(windows[1..], overlap)
  {
    if windows == [] then [] else windows[0] + Additions(windows[1..], overlap)
  }

  lemma {:induction false} AdditionsAreSuffix<T>(tokens: seq<T>, maxTokens: nat, overlap: nat, start: nat, windows: seq<seq<T>>)
    requires Regular(maxTokens, overlap) && start + overlap < |tokens|
    requires windows == Windows(tokens, maxTokens, overlap, start)
    ensures LongEnough(windows, overlap) && Additions(windows, overlap) == tokens[start + overlap..]
    decreases |tokens| - start
  {
    var end := start + maxTokens;
    if end >= |tokens| {
      assert windows[1..] == [];
      assert tokens[start..][overlap..] == tokens[start + overlap..];
    } else {
      var rest := Windows(tokens, maxTokens, overlap, end - overlap);
      AdditionsAreSuffix(tokens, maxTokens, overlap, end - overlap, rest);
      assert windows[1..] == rest;
      assert tokens[start..end][overlap..] + tokens[end..] == tokens[start + overlap..];
    }
  }

  /** Dropping the shared prefixes and concatenating gives the tokens back. */
  lemma WindowsReconstruct<T>(tokens: seq<T>, maxTokens: nat, overlap: nat, windows: seq<seq<T>>)
    requires Regular(maxTokens, overlap) && windows == Windows(tokens, maxTokens, overlap, 0)
    ensures windows != [] ==> LongEnough(windows[1..], overlap)
    ensures Merge(windows, overlap) == tokens
  {
    if |tokens| > maxTokens {
      var rest := Windows(tokens, maxTokens, overlap, maxTokens - overlap);
      AdditionsAreSuffix(tokens, maxTokens, overlap, maxTokens - overlap, rest);
      assert windows[1..] == rest;
      assert tokens[..maxTokens] + tokens[maxTokens..] == tokens;
    } else if |tokens| > 0 {
      assert windows[1..] == [];
    }
  }

  /** `a / b`, rounded up. */
  function CeilDiv(a: nat, b: nat): nat
    requires b > 0
  {
    if a == 0 then 0 else if a <= b then 1 else 1 + CeilDiv(a - b, b)
  }

  lemma {:induction false} CeilDivMeaning(a: nat, b: nat)
    requires b > 0
    ensures CeilDiv(a, b) * b >= a
    ensures a > 0 ==> CeilDiv(a, b) > 0 && (CeilDiv(a, b) - 1) * b < a
  {
    if a > b {
      CeilDivMeaning(a - b, b);
      var c := CeilDiv(a - b, b);
      assert CeilDiv(a, b) == c + 1;
      assert (c + 1) * b == c * b + b;
      assert c * b == (c - 1) * b + b;
    }
  }

  /** The number of windows over `n` tokens. */
  function WindowCount(n: nat, maxTokens: nat, overlap: nat): nat
    requires Regular(maxTokens, overlap)
  {
    if n == 0 then 0 else if n <= maxTokens then 1 else 1 + CeilDiv(n - maxTokens, maxTokens - overlap)
  }

  lemma {:induction false} WindowsCounted<T>(tokens: seq<T>, maxTokens: nat, overlap: nat, start: nat)
    requires Regular(maxTokens, overlap) && start <= |tokens|
    ensures |Windows(tokens, maxTokens, overlap, start)| == WindowCount(|tokens| - start, maxTokens, overlap)
    decreases |tokens| - start
  {
    var left := |tokens| - start;
    if left > maxTokens {
      WindowsCounted(tokens, maxTokens, overlap, start + maxTokens - overlap);
    }
  }
}
