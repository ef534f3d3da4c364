/** Family keys of model ids (backend/src/catalog.py): the repository name with unified
    separators and without format markers. Ids are ASCII strings. */
module FamilyKeys {
  import opened Basics

  const QUANT_TOKENS: set<string> := {
    "gguf", "awq", "gptq", "mlx", "exl2", "bnb", "nf4", "fp8", "fp4",
    "int4", "int8", "w4a16", "w8a8", "4bit", "8bit", "quantized", "onnx",
    "autoround", "unsloth"
  }

  predicate IsSeparator(c: char) { c == '-' || c == '_' || c == '.' || c == '/' }

  function LowerChar(c: char): char {
    if 'A' <= c <= 'Z' then (c as int + 32) as char else c
  }

  function Lower(s: string): (r: string)
    ensures |r| == |s|
    ensures forall i :: 0 <= i < |s| ==> r[i] == LowerChar(s[i])
  {
    seq(|s|, i requires 0 <= i < |s| => LowerChar(s[i]))
  }

  /** Splitting at separators from left to right: the finished tokens and the open one. */
  function Scan(s: string): (seq<string>, string) {
    if s == "" then ([], "")
    else
      var n := |s| - 1;
      var (tokens, open) := Scan(s[..n]);
      if !IsSeparator(s[n]) then (tokens, open + [s[n]])
      else if open == "" then (tokens, "")
      else (tokens + [open], "")
  }

  /** The pieces between runs of separators; both users of the split drop empty pieces. */
  function Tokens(s: string): seq<string> {
    var (tokens, open) := Scan(s);
    if open == "" then tokens else tokens + [open]
  }

  function WithoutQuant(tokens: seq<string>): seq<string> {
    if tokens == [] then []
    else
      var n := |tokens| - 1;
      var before := WithoutQuant(tokens[..n]);
      if tokens[n] in QUANT_TOKENS then before else before + [tokens[n]]
  }

  function Join(tokens: seq<string>): string {
    if tokens == [] then ""
    else if |tokens| == 1 then tokens[0]
    else Join(tokens[..|tokens| - 1]) + "-" + tokens[|tokens| - 1]
  }

  /** The part after the first slash, or the whole id. */
  function Repo(id: string): string {
    if id == "" then ""
    else
      var n := |id| - 1;
      if '/' in id[..n] then Repo(id[..n]) + [id[n]]
      else if id[n] == '/' then "" else id
  }

  /** Meta-Llama repositories were renamed. */
  function Rename(s: string): string {
    if "meta-llama-" <= s then "llama-" + s[11..] else s
  }

  function FamilyKey(id: string): string {
    Rename(Join(WithoutQuant(Tokens(Lower(Repo(id))))))
  }

  predicate IsQuantizedReupload(id: string) {
    exists t :: t in Tokens(Lower(id)) && t in QUANT_TOKENS
  }

  // ----- Splitting and joining undo each other -----

  ghost predicate IsToken(t: string) {
    t != "" && forall i :: 0 <= i < |t| ==> !IsSeparator(t[i])
  }

  ghost predicate AreTokens(ts: seq<string>) {
    forall i :: 0 <= i < |ts| ==> IsToken(ts[i])
  }

  lemma {:induction false} ScanTokens(s: string)
    ensures AreTokens(Scan(s).0) && (Scan(s).1 != "" ==> IsToken(Scan(s).1))
  {
    if s != "" {
      ScanTokens(s[..|s| - 1]);
    }
  }

  lemma TokensAreTokens(s: string)
    ensures AreTokens(Tokens(s))
  {
    ScanTokens(s);
  }

  /** After a separator, scanning starts afresh. */
  lemma {:induction false} ScanConcat(u: string, v: string, s: string)
    requires s == u + v && Scan(u).1 == ""
    ensures Scan(s) == (Scan(u).0 + Scan(v).0, Scan(v).1)
    decreases |v|
  {
    if v == "" {
      assert s == u;
      assert Scan(u).0 + [] == Scan(u).0;
    } else {
      var n := |v| - 1;
      assert s[..|s| - 1] == u + v[..n] && s[|s| - 1] == v[n];
      ScanConcat(u, v[..n], s[..|s| - 1]);
      var (before, (tokens, open)) := (Scan(u).0, Scan(v[..n]));
      assert before + (tokens + [open]) == before + tokens + [open];
    }
  }

  lemma ScanSeparator(u: string, c: char, s: string)
    requires IsSeparator(c) && s == u + [c]
    ensures Scan(s) == (Tokens(u), "")
  {
    assert s[..|s| - 1] == u;
  }

  /** A separator splits: the tokens of both sides follow each other. */
  lemma TokensConcat(u: string, c: char, v: string, s: string)
    requires IsSeparator(c) && s == u + [c] + v
    ensures Tokens(s) == Tokens(u) + Tokens(v)
  {
    ScanSeparator(u, c, u + [c]);
    ScanConcat(u + [c], v, s);
  }

  lemma {:induction false} ScanToken(t: string)
    requires forall i :: 0 <= i < |t| ==> !IsSeparator(t[i])
    ensures Scan(t) == ([], t)
  {
    if t != "" {
      ScanToken(t[..|t| - 1]);
      assert t == t[..|t| - 1] + [t[|t| - 1]];
    }
  }

  /** Joining tokens and splitting the result gives the tokens back. */
  lemma {:induction false} TokensOfJoin(ts: seq<string>)
    requires AreTokens(ts)
    ensures Tokens(Join(ts)) == ts
  {
    if ts == [] {
    } else {
      var n := |ts| - 1;
      ScanToken(ts[n]);
      if n > 0 {
        TokensOfJoin(ts[..n]);
        TokensConcat(Join(ts[..n]), '-', ts[n], Join(ts));
      }
      assert ts == ts[..n] + [ts[n]];
    }
  }

  lemma {:induction false} JoinFront(ts: seq<string>)
    requires |ts| >= 2
    ensures Join(ts) == ts[0] + "-" + Join(ts[1..])
  {
    var n := |ts| - 1;
    if n == 1 {
      assert ts[..1] == [ts[0]] && ts[1..] == [ts[1]];
    } else {
      JoinFront(ts[..n]);
      assert ts[..n][1..] == ts[1..][..n - 1];
    }
  }

  // ----- The key is a canonical form -----

  /** The renaming, on tokens: the leading "meta" of a "meta-llama-..." name is dropped. */
  function RenameTokens(ts: seq<string>): seq<string> {
    if |ts| >= 3 && ts[0] == "meta" && ts[1] == "llama" then ts[1..] else ts
  }

  ghost function Canonical(id: string): seq<string> {
    RenameTokens(WithoutQuant(Tokens(Lower(Repo(id)))))
  }

  lemma MetaLlamaTokens(rest: string, s: string)
    requires s == "meta-llama-" + rest
    ensures Tokens(s) == ["meta", "llama"] + Tokens(rest)
  {
    var tail := "llama" + ['-'] + rest;
    assert s == "meta" + ['-'] + tail;
    TokensConcat("meta", '-', tail, s);
    TokensConcat("llama", '-', rest, tail);
    ScanToken("meta");
    ScanToken("llama");
  }

  lemma JoinTwo(a: string, b: string)
    ensures Join([a, b]) == a + "-" + b
  {
    assert [a, b][..1] == [a];
  }

  lemma MetaPrefixTokens(ts: seq<string>, rest: string)
    requires AreTokens(ts) && Join(ts) == "meta-llama-" + rest
    ensures |ts| >= 3 && ts[0] == "meta" && ts[1] == "llama"
  {
    TokensOfJoin(ts);
    MetaLlamaTokens(rest, Join(ts));
    if |ts| == 2 {
      assert ts == [ts[0], ts[1]];
      JoinTwo(ts[0], ts[1]);
    }
  }

  lemma MetaLlamaText(rest: string)
    ensures "meta" + "-" + ("llama" + "-" + rest) == "meta-llama-" + rest
    ensures "llama" + "-" + rest == "llama-" + rest
  {
    assert "meta" + "-" + "llama" + "-" == "meta-llama-";
    assert "llama" + "-" == "llama-";
  }

  lemma MetaTokensPrefix(ts: seq<string>)
    requires |ts| >= 3 && ts[0] == "meta" && ts[1] == "llama"
    ensures Join(ts) == "meta-llama-" + Join(ts[2..]) && Join(ts[1..]) == "llama-" + Join(ts[2..])
  {
    var tail := ts[1..];
    assert tail[1..] == ts[2..];
    JoinFront(ts);
    JoinFront(tail);
    MetaLlamaText(Join(ts[2..]));
  }

  lemma RenameOfJoin(ts: seq<string>)
    requires AreTokens(ts)
    ensures Rename(Join(ts)) == Join(RenameTokens(ts))
  {
    var s := Join(ts);
    if |ts| >= 3 && ts[0] == "meta" && ts[1] == "llama" {
      MetaTokensPrefix(ts);
    } else if "meta-llama-" <= s {
      MetaPrefixTokens(ts, s[11..]);
    }
  }

  lemma {:induction false} WithoutQuantTokens(ts: seq<string>)
    ensures forall t :: t in WithoutQuant(ts) <==> t in ts && t !in QUANT_TOKENS
    ensures AreTokens(ts) ==> AreTokens(WithoutQuant(ts))
  {
    if ts != [] {
      WithoutQuantTokens(ts[..|ts| - 1]);
      assert ts == ts[..|ts| - 1] + [ts[|ts| - 1]];
    }
  }

  lemma CanonicalTokens(id: string)
    ensures AreTokens(Canonical(id))
    ensures FamilyKey(id) == Join(Canonical(id))
    ensures Tokens(FamilyKey(id)) == Canonical(id)
  {
    var ts := Tokens(Lower(Repo(id)));
    TokensAreTokens(Lower(Repo(id)));
    WithoutQuantTokens(ts);
    RenameOfJoin(WithoutQuant(ts));
    TokensOfJoin(Canonical(id));
  }

  /** Two ids share a key exactly when their token lists agree, format markers aside and
      up to the renaming. */
  lemma SameKeyIffSameTokens(a: string, b: string)
    ensures FamilyKey(a) == FamilyKey(b) <==> Canonical(a) == Canonical(b)
  {
    CanonicalTokens(a);
    CanonicalTokens(b);
  }

  // ----- Idempotence -----

  ghost predicate Settled(s: string) {
    forall i :: 0 <= i < |s| ==> LowerChar(s[i]) == s[i]
  }

  lemma {:induction false} ScanSettled(s: string)
    requires Settled(s)
    ensures forall i :: 0 <= i < |Scan(s).0| ==> Settled(Scan(s).0[i])
    ensures Settled(Scan(s).1)
  {
    if s != "" {
      ScanSettled(s[..|s| - 1]);
    }
  }

  lemma {:induction false} JoinSettled(ts: seq<string>)
    requires AreTokens(ts) && forall i :: 0 <= i < |ts| ==> Settled(ts[i])
    ensures Settled(Join(ts)) && '/' !in Join(ts)
  {
    if |ts| > 1 {
      JoinSettled(ts[..|ts| - 1]);
    }
    if |ts| > 0 {
      var last := ts[|ts| - 1];
      assert forall i :: 0 <= i < |last| ==> last[i] != '/' && LowerChar(last[i]) == last[i];
    }
  }

  lemma {:induction false} NoSlash(id: string)
    requires '/' !in id
    ensures Repo(id) == id
  {
    if id != "" {
      assert id[|id| - 1] in id;
      assert forall c :: c in id[..|id| - 1] ==> c in id;
    }
  }

  lemma {:induction false} WithoutQuantFixed(ts: seq<string>)
    requires forall t :: t in ts ==> t !in QUANT_TOKENS
    ensures WithoutQuant(ts) == ts
  {
    if ts != [] {
      WithoutQuantFixed(ts[..|ts| - 1]);
      assert ts == ts[..|ts| - 1] + [ts[|ts| - 1]];
    }
  }

  lemma CanonicalSettled(id: string)
    ensures forall i :: 0 <= i < |Canonical(id)| ==> Settled(Canonical(id)[i])
    ensures forall t :: t in Canonical(id) ==> t !in QUANT_TOKENS
  {
    var lower := Lower(Repo(id));
    ScanSettled(lower);
    WithoutQuantTokens(Tokens(lower));
    forall i | 0 <= i < |Canonical(id)| ensures Settled(Canonical(id)[i]) {
      assert Canonical(id)[i] in WithoutQuant(Tokens(lower));
    }
  }

  lemma SettledIsLower(s: string)
    requires Settled(s)
    ensures Lower(s) == s
  {
  }

  /** The key of a key is the key itself. */
  lemma {:induction false} KeyIsIdempotent(id: string)
    ensures FamilyKey(FamilyKey(id)) == FamilyKey(id)
  {
    var key, ts := FamilyKey(id), Canonical(id);
    CanonicalTokens(id);
    CanonicalSettled(id);
    JoinSettled(ts);
    NoSlash(key);
    SettledIsLower(key);
    WithoutQuantFixed(ts);
    CanonicalTokens(key);
  }

  // ----- Repository names -----

  lemma {:induction false} RepoAfterOrg(org: string, repo: string, id: string)
    requires '/' !in org && id == org + ['/'] + repo
    ensures Repo(id) == repo
    decreases |repo|
  {
    var n := |id| - 1;
    if repo == "" {
      assert id[..n] == org;
    } else {
      var m := |repo| - 1;
      assert id[..n] == org + ['/'] + repo[..m];
      assert id[..n][|org|] == '/';
      RepoAfterOrg(org, repo[..m], id[..n]);
    }
  }

  lemma LowerAppend(a: string, b: string, s: string)
    requires s == a + b
    ensures Lower(s) == Lower(a) + Lower(b)
  {
  }

  ghost predicate AreSeparators(g: string) {
    forall i :: 0 <= i < |g| ==> IsSeparator(g[i])
  }

  lemma {:induction false} ScanSeparators(u: string, g: string, s: string)
    requires AreSeparators(g) && g != "" && s == u + g
    ensures Scan(s) == (Tokens(u), "")
    decreases |g|
  {
    var n := |g| - 1;
    assert s[..|s| - 1] == u + g[..n];
    if n == 0 {
      ScanSeparator(u, g[0], s);
    } else {
      ScanSeparators(u, g[..n], s[..|s| - 1]);
    }
  }

  /** A run of separators splits like a single one. */
  lemma TokensGap(u: string, g: string, v: string, s: string)
    requires AreSeparators(g) && g != "" && s == u + g + v
    ensures Tokens(s) == Tokens(u) + Tokens(v)
  {
    ScanSeparators(u, g, u + g);
    ScanConcat(u + g, v, s);
  }

  // ----- Spellings: words in any letter case, with any runs of separators around them -----

  datatype Piece = Piece(gap: string, word: string)

  function Spelled(pieces: seq<Piece>): string {
    if pieces == [] then ""
    else
      var last := pieces[|pieces| - 1];
      Spelled(pieces[..|pieces| - 1]) + last.gap + last.word
  }

  ghost predicate IsSpelling(pieces: seq<Piece>) {
    forall i :: 0 <= i < |pieces| ==>
      AreSeparators(pieces[i].gap) && (i > 0 ==> pieces[i].gap != "") && IsToken(pieces[i].word)
  }

  ghost function Words(pieces: seq<Piece>): (r: seq<string>)
    ensures |r| == |pieces|
  {
    seq(|pieces|, i requires 0 <= i < |pieces| => Lower(pieces[i].word))
  }

  lemma LowerKeepsSeparators(s: string)
    ensures AreSeparators(s) ==> AreSeparators(Lower(s))
    ensures IsToken(s) ==> IsToken(Lower(s))
  {
  }

  lemma TokensOfWord(w: string)
    requires IsToken(w)
    ensures Tokens(w) == [w]
  {
    ScanToken(w);
  }

  lemma TokensOfPiece(before: string, p: Piece, s: string)
    requires AreSeparators(p.gap) && IsToken(p.word) && s == before + p.gap + p.word
    requires before != "" ==> p.gap != ""
    ensures Tokens(Lower(s)) == Tokens(Lower(before)) + [Lower(p.word)]
  {
    LowerAppend(before + p.gap, p.word, s);
    LowerAppend(before, p.gap, before + p.gap);
    LowerKeepsSeparators(p.gap);
    LowerKeepsSeparators(p.word);
    TokensOfWord(Lower(p.word));
    if p.gap != "" {
      TokensGap(Lower(before), Lower(p.gap), Lower(p.word), Lower(s));
    } else {
      assert Lower(s) == Lower(p.word);
    }
  }

  lemma {:induction false} TokensOfSpelled(pieces: seq<Piece>)
    requires IsSpelling(pieces)
    ensures Tokens(Lower(Spelled(pieces))) == Words(pieces)
  {
    if pieces != [] {
      var n := |pieces| - 1;
      TokensOfSpelled(pieces[..n]);
      assert n == 0 ==> Spelled(pieces[..n]) == "";
      TokensOfPiece(Spelled(pieces[..n]), pieces[n], Spelled(pieces));
      assert Words(pieces) == Words(pieces[..n]) + [Lower(pieces[n].word)];
    }
  }

  /** The tokens of a repository name, in lower case, are its words. */
  lemma TokensOfSpelling(pieces: seq<Piece>, tail: string, repo: string)
    requires IsSpelling(pieces) && AreSeparators(tail) && repo == Spelled(pieces) + tail
    ensures Tokens(Lower(repo)) == Words(pieces)
  {
    TokensOfSpelled(pieces);
    LowerAppend(Spelled(pieces), tail, repo);
    LowerKeepsSeparators(tail);
    if tail != "" {
      TokensGap(Lower(Spelled(pieces)), Lower(tail), "", Lower(repo));
    } else {
      assert Lower(repo) == Lower(Spelled(pieces));
    }
  }

  lemma ExtendWord(pieces: seq<Piece>, c: char) returns (more: seq<Piece>)
    requires IsSpelling(pieces) && pieces != [] && !IsSeparator(c)
    ensures IsSpelling(more) && Spelled(more) == Spelled(pieces) + [c]
  {
    var n := |pieces| - 1;
    var before, last := pieces[..n], pieces[n];
    var longer := Piece(last.gap, last.word + [c]);
    more := before + [longer];
    SpelledNext(before, longer, more);
    SpelledNext(before, last, pieces);
    assert Spelled(before) + last.gap + (last.word + [c]) == Spelled(before) + last.gap + last.word + [c];
  }

  lemma SpelledNext(before: seq<Piece>, p: Piece, pieces: seq<Piece>)
    requires pieces == before + [p]
    ensures Spelled(pieces) == Spelled(before) + p.gap + p.word
  {
    assert pieces[..|pieces| - 1] == before;
  }

  lemma ExtendSpelling(pieces: seq<Piece>, tail: string, c: char) returns (more: seq<Piece>)
    requires IsSpelling(pieces) && AreSeparators(tail) && !IsSeparator(c)
    ensures IsSpelling(more) && Spelled(more) == Spelled(pieces) + tail + [c]
  {
    if tail == "" && pieces != [] {
      more := ExtendWord(pieces, c);
      assert Spelled(pieces) + tail == Spelled(pieces);
    } else {
      more := pieces + [Piece(tail, [c])];
      SpelledNext(pieces, Piece(tail, [c]), more);
    }
  }

  /** Every repository name is some spelling. */
  lemma {:induction false} EveryRepoIsSpelled(repo: string) returns (pieces: seq<Piece>, tail: string)
    ensures IsSpelling(pieces) && AreSeparators(tail) && repo == Spelled(pieces) + tail
  {
    if repo == "" {
      pieces, tail := [], "";
    } else {
      var n := |repo| - 1;
      var before, gap := EveryRepoIsSpelled(repo[..n]);
      assert repo == repo[..n] + [repo[n]];
      if IsSeparator(repo[n]) {
        pieces, tail := before, gap + [repo[n]];
      } else {
        pieces := ExtendSpelling(before, gap, repo[n]);
        tail := "";
      }
    }
  }

  // ----- What the key does not see -----

  /** An id with or without an organisation. */
  function IdOf(org: Option<string>, repo: string): string {
    if org.Some? then org.value + ['/'] + repo else repo
  }

  ghost predicate IsOrg(org: Option<string>, repo: string) {
    if org.Some? then '/' !in org.value else '/' !in repo
  }

  lemma RepoOfId(org: Option<string>, repo: string)
    requires IsOrg(org, repo)
    ensures Repo(IdOf(org, repo)) == repo
  {
    if org.Some? {
      RepoAfterOrg(org.value, repo, IdOf(org, repo));
    } else {
      NoSlash(repo);
    }
  }

  /** Letter case, the choice and number of separators, format markers anywhere and the
      organisation do not change the key: only the other words do. */
  lemma KeyIgnoresSpelling(orgA: Option<string>, a: seq<Piece>, tailA: string, repoA: string,
                           orgB: Option<string>, b: seq<Piece>, tailB: string, repoB: string)
    requires IsSpelling(a) && AreSeparators(tailA) && repoA == Spelled(a) + tailA && IsOrg(orgA, repoA)
    requires IsSpelling(b) && AreSeparators(tailB) && repoB == Spelled(b) + tailB && IsOrg(orgB, repoB)
    requires WithoutQuant(Words(a)) == WithoutQuant(Words(b))
    ensures FamilyKey(IdOf(orgA, repoA)) == FamilyKey(IdOf(orgB, repoB))
  {
    RepoOfId(orgA, repoA);
    RepoOfId(orgB, repoB);
    TokensOfSpelling(a, tailA, repoA);
    TokensOfSpelling(b, tailB, repoB);
  }

  lemma {:induction false} WithoutQuantConcat(a: seq<string>, b: seq<string>, ts: seq<string>)
    requires ts == a + b
    ensures WithoutQuant(ts) == WithoutQuant(a) + WithoutQuant(b)
    decreases |b|
  {
    if b == [] {
      assert ts == a;
    } else {
      var n := |b| - 1;
      assert ts[..|ts| - 1] == a + b[..n];
      WithoutQuantConcat(a, b[..n], ts[..|ts| - 1]);
    }
  }

  lemma WithoutQuantInserted(front: seq<string>, q: string, back: seq<string>, ts: seq<string>)
    requires q in QUANT_TOKENS && ts == front + [q] + back
    ensures WithoutQuant(ts) == WithoutQuant(front + back)
  {
    WithoutQuantConcat(front + [q], back, ts);
    WithoutQuantConcat(front, [q], front + [q]);
    WithoutQuantConcat(front, back, front + back);
    assert [q][..0] == [];
    assert WithoutQuant([q]) == [];
  }

  /** A format marker as an additional word, at the front, at the end or in between, does
      not change the key, however both ids are spelled. */
  lemma KeyIgnoresQuantToken(orgA: Option<string>, a: seq<Piece>, tailA: string, plain: string,
                             orgB: Option<string>, b: seq<Piece>, tailB: string, marked: string, i: nat, q: string)
    requires IsSpelling(a) && AreSeparators(tailA) && plain == Spelled(a) + tailA && IsOrg(orgA, plain)
    requires IsSpelling(b) && AreSeparators(tailB) && marked == Spelled(b) + tailB && IsOrg(orgB, marked)
    requires i <= |a| && q in QUANT_TOKENS && Words(b) == Words(a)[..i] + [q] + Words(a)[i..]
    ensures FamilyKey(IdOf(orgA, plain)) == FamilyKey(IdOf(orgB, marked))
  {
    assert Words(a)[..i] + Words(a)[i..] == Words(a);
    WithoutQuantInserted(Words(a)[..i], q, Words(a)[i..], Words(b));
    KeyIgnoresSpelling(orgA, a, tailA, plain, orgB, b, tailB, marked);
  }

  lemma {:induction false} RepoAppended(id: string, more: string, s: string)
    requires s == id + more && ('/' in id || '/' !in more)
    ensures Repo(s) == Repo(id) + more
    decreases |more|
  {
    if more == "" {
      assert s == id;
    } else if '/' in id {
      var n := |more| - 1;
      assert s[..|s| - 1] == id + more[..n];
      RepoAppended(id, more[..n], s[..|s| - 1]);
    } else {
      NoSlash(id);
      NoSlash(s);
    }
  }

  /** For every id: appending "-GGUF", or any other marker after any separators, gives a
      re-upload of the same family. */
  lemma KeyIgnoresAppendedMarker(id: string, gap: string, q: string, marked: string)
    requires AreSeparators(gap) && gap != "" && IsToken(q) && Lower(q) in QUANT_TOKENS && marked == id + gap + q
    requires '/' in id || '/' !in gap
    ensures FamilyKey(marked) == FamilyKey(id)
  {
    var repo, more := Repo(id), gap + q;
    assert marked == id + more;
    assert forall i :: 0 <= i < |q| ==> q[i] != '/';
    RepoAppended(id, more, marked);
    TokensOfPieceAfter(repo, gap, q, Repo(marked));
    var ts := Tokens(Lower(repo));
    assert ts + [Lower(q)] + [] == ts + [Lower(q)] && ts + [] == ts;
    WithoutQuantInserted(ts, Lower(q), [], ts + [Lower(q)]);
  }

  lemma TokensOfPieceAfter(before: string, gap: string, word: string, s: string)
    requires AreSeparators(gap) && gap != "" && IsToken(word) && s == before + (gap + word)
    ensures Tokens(Lower(s)) == Tokens(Lower(before)) + [Lower(word)]
  {
    assert s == before + gap + word;
    TokensOfPiece(before, Piece(gap, word), s);
  }
}
