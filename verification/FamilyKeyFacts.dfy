/** Family keys in terms of the characters of an id (backend/src/catalog.py): letters,
    separators and the format markers themselves. */
module FamilyKeyFacts {
  import opened Basics
  import opened FamilyKeys

  /** The same letter in either case, or the same character. */
  predicate SameLetter(a: char, b: char) {
    || a == b
    || ('A' <= a <= 'Z' && b as int == a as int + 32)
    || ('A' <= b <= 'Z' && a as int == b as int + 32)
  }

  predicate Breaks(c: char) { c in ['-', '_', '.', '/'] }

  predicate SpelledLike(a: string, b: string) {
    |a| == |b| && forall i :: 0 <= i < |a| ==> SameLetter(a[i], b[i])
  }

  predicate IsMarker(word: string) {
    exists t :: t in ["gguf", "awq", "gptq", "mlx", "exl2", "bnb", "nf4", "fp8", "fp4", "int4", "int8", "w4a16", "w8a8",
                      "4bit", "8bit", "quantized", "onnx", "autoround", "unsloth"] && SpelledLike(word, t)
  }

  /** A longest stretch of the text without separators. */
  ghost predicate WordAt(s: string, i: nat, j: nat) {
    && i < j <= |s|
    && (forall k :: i <= k < j ==> !Breaks(s[k]))
    && (i == 0 || Breaks(s[i - 1])) && (j == |s| || Breaks(s[j]))
  }

  // ----- Letter case -----

  predicate NoCapitals(s: string) { forall i :: 0 <= i < |s| ==> !('A' <= s[i] <= 'Z') }

  lemma LikeIffLower(q: string, t: string)
    requires NoCapitals(t)
    ensures SpelledLike(q, t) <==> Lower(q) == t
  {
    if |q| == |t| {
      forall i | 0 <= i < |q| ensures SameLetter(q[i], t[i]) <==> Lower(q)[i] == t[i] {
      }
    }
  }

  lemma MarkersHaveNoCapitals(t: string)
    requires t in QUANT_TOKENS
    ensures NoCapitals(t)
  {
  }

  lemma MarkerIff(q: string)
    ensures IsMarker(q) <==> Lower(q) in QUANT_TOKENS
  {
    var markers := ["gguf", "awq", "gptq", "mlx", "exl2", "bnb", "nf4", "fp8", "fp4", "int4", "int8", "w4a16", "w8a8",
                    "4bit", "8bit", "quantized", "onnx", "autoround", "unsloth"];
    forall t ensures t in markers <==> t in QUANT_TOKENS {
    }
    forall t | t in QUANT_TOKENS ensures SpelledLike(q, t) <==> Lower(q) == t {
      MarkersHaveNoCapitals(t);
      LikeIffLower(q, t);
    }
  }

  lemma SeparatorIff(c: char)
    ensures Breaks(c) <==> IsSeparator(c)
    ensures Breaks(LowerChar(c)) <==> Breaks(c)
  {
  }

  lemma {:induction false} ScanAlike(a: string, b: string)
    requires |a| == |b| && forall i :: 0 <= i < |a| ==> a[i] == b[i] || (IsSeparator(a[i]) && IsSeparator(b[i]))
    ensures Scan(a) == Scan(b)
  {
    if a != "" {
      ScanAlike(a[..|a| - 1], b[..|b| - 1]);
    }
  }

  lemma LowerAlike(x: char, y: char)
    requires SameLetter(x, y) || (Breaks(x) && Breaks(y))
    ensures LowerChar(x) == LowerChar(y) || (IsSeparator(LowerChar(x)) && IsSeparator(LowerChar(y)))
  {
    SeparatorIff(LowerChar(x));
    SeparatorIff(LowerChar(y));
    SeparatorIff(x);
    SeparatorIff(y);
  }

  /** Repository names that differ only in the case of letters and in which separators they
      use have the same key, under any organisation or none. */
  lemma KeyIgnoresCaseAndSeparators(orgA: Option<string>, a: string, orgB: Option<string>, b: string)
    requires IsOrg(orgA, a) && IsOrg(orgB, b) && |a| == |b|
    requires forall i :: 0 <= i < |a| ==> SameLetter(a[i], b[i]) || (Breaks(a[i]) && Breaks(b[i]))
    ensures FamilyKey(IdOf(orgA, a)) == FamilyKey(IdOf(orgB, b))
  {
    RepoOfId(orgA, a);
    RepoOfId(orgB, b);
    forall i | 0 <= i < |a|
      ensures Lower(a)[i] == Lower(b)[i] || (IsSeparator(Lower(a)[i]) && IsSeparator(Lower(b)[i]))
    {
      LowerAlike(a[i], b[i]);
    }
    ScanAlike(Lower(a), Lower(b));
  }

  /** No key holds a capital letter. */
  lemma KeyHasNoCapitals(id: string)
    ensures NoCapitals(FamilyKey(id))
  {
    CanonicalTokens(id);
    CanonicalSettled(id);
    JoinSettled(Canonical(id));
    forall i | 0 <= i < |FamilyKey(id)| ensures !('A' <= FamilyKey(id)[i] <= 'Z') {
      assert LowerChar(FamilyKey(id)[i]) == FamilyKey(id)[i];
    }
  }

  // ----- Words -----

  lemma WordsLower(s: string, i: nat, j: nat)
    ensures WordAt(s, i, j) <==> WordAt(Lower(s), i, j)
    ensures i < j <= |s| ==> Lower(s)[i..j] == Lower(s[i..j])
  {
    forall k | 0 <= k < |s| ensures Breaks(Lower(s)[k]) <==> Breaks(s[k]) {
      SeparatorIff(s[k]);
    }
  }

  /** Where the open token of a scan begins. */
  ghost predicate OpenAt(s: string, k: nat) {
    && k <= |s| && Scan(s).1 == s[k..]
    && (forall l :: k <= l < |s| ==> !Breaks(s[l]))
    && (k == 0 || Breaks(s[k - 1]))
  }

  lemma OpenNext(init: string, c: char, s: string, k: nat)
    requires s == init + [c] && OpenAt(init, k)
    ensures OpenAt(s, if Breaks(c) then |s| else k)
  {
    SeparatorIff(c);
    assert s[..|s| - 1] == init;
    assert forall l :: 0 <= l < |init| ==> s[l] == init[l];
    if !Breaks(c) {
      assert s[k..] == init[k..] + [c];
    }
  }

  lemma {:induction false} ScanOpen(s: string) returns (k: nat)
    ensures OpenAt(s, k)
  {
    if s == "" {
      k := 0;
    } else {
      var n := |s| - 1;
      k := ScanOpen(s[..n]);
      assert s == s[..n] + [s[n]];
      OpenNext(s[..n], s[n], s, k);
      k := if Breaks(s[n]) then |s| else k;
    }
  }

  ghost predicate WordBefore(s: string, t: string) {
    exists i: nat, j: nat :: WordAt(s, i, j) && j < |s| && s[i..j] == t
  }

  lemma WordBeforeNext(init: string, c: char, s: string, t: string, k: nat)
    requires s == init + [c] && OpenAt(init, k)
    ensures WordBefore(s, t) <==> WordBefore(init, t) || (Breaks(c) && k < |init| && t == init[k..])
  {
    if i: nat, j: nat :| WordAt(s, i, j) && j < |s| && s[i..j] == t {
      WordPrefix(init, c, s, i, j);
      if j < |init| {
        assert WordAt(init, i, j) && init[i..j] == t;
      } else {
        SameStart(init, i, k);
        assert s[i..j] == init[k..];
      }
    }
    if i: nat, j: nat :| WordAt(init, i, j) && j < |init| && init[i..j] == t {
      WordPrefix(init, c, s, i, j);
      assert s[i..j] == t;
    }
    if Breaks(c) && k < |init| && t == init[k..] {
      WordPrefix(init, c, s, k, |init|);
      assert s[k..|init|] == t;
    }
  }

  lemma WordPrefix(init: string, c: char, s: string, i: nat, j: nat)
    requires s == init + [c] && i < j <= |init|
    ensures j < |init| ==> (WordAt(s, i, j) <==> WordAt(init, i, j))
    ensures j == |init| ==> (WordAt(s, i, j) <==> WordAt(init, i, j) && Breaks(c))
    ensures s[i..j] == init[i..j]
  {
    assert forall k :: 0 <= k < |init| ==> s[k] == init[k];
  }

  /** The last stretch of a text begins at one place. */
  lemma SameStart(init: string, i: nat, k: nat)
    requires i < |init| && WordAt(init, i, |init|) && OpenAt(init, k)
    ensures i == k
  {
    assert k == 0 || Breaks(init[k - 1]);
    assert i == 0 || Breaks(init[i - 1]);
  }

  lemma {:induction false} ScannedWords(s: string, t: string)
    ensures t in Scan(s).0 <==> WordBefore(s, t)
  {
    if s != "" {
      var n := |s| - 1;
      ScannedWords(s[..n], t);
      var k := ScanOpen(s[..n]);
      SeparatorIff(s[n]);
      WordBeforeNext(s[..n], s[n], s, t, k);
      assert Scan(s[..n]).1 == s[..n][k..];
    }
  }

  /** The tokens of a text are its longest stretches without separators. */
  lemma TokensAreWords(s: string, t: string)
    ensures t in Tokens(s) <==> exists i: nat, j: nat :: WordAt(s, i, j) && s[i..j] == t
  {
    ScannedWords(s, t);
    var k := ScanOpen(s);
    if i: nat, j: nat :| WordAt(s, i, j) && s[i..j] == t {
      if j < |s| {
        assert WordBefore(s, t);
      } else {
        SameStart(s, i, k);
        assert s[k..] == t;
      }
    }
    if t in Tokens(s) && t !in Scan(s).0 {
      assert t == s[k..] && WordAt(s, k, |s|) && s[k..|s|] == t;
    }
  }

  /** An id is a quantized re-upload exactly when one of its words is a format marker. */
  lemma QuantizedIffMarker(id: string)
    ensures IsQuantizedReupload(id) <==> exists i: nat, j: nat :: WordAt(id, i, j) && IsMarker(id[i..j])
  {
    if t :| t in Tokens(Lower(id)) && t in QUANT_TOKENS {
      TokensAreWords(Lower(id), t);
      var i: nat, j: nat :| WordAt(Lower(id), i, j) && Lower(id)[i..j] == t;
      WordsLower(id, i, j);
      MarkerIff(id[i..j]);
    }
    if i: nat, j: nat :| WordAt(id, i, j) && IsMarker(id[i..j]) {
      WordsLower(id, i, j);
      MarkerIff(id[i..j]);
      TokensAreWords(Lower(id), Lower(id)[i..j]);
    }
  }

  // ----- What an appended word does to the key -----

  lemma OneMoreWord(ts: seq<string>, w: string)
    ensures RenameTokens(ts + [w]) != RenameTokens(ts)
  {
    if |ts| == 2 && ts[0] == "meta" && ts[1] == "llama" {
      assert RenameTokens(ts + [w])[0] == "llama";
    }
  }

  /** Appending a word to an id leaves its family exactly when the word is a format marker. */
  lemma AppendedWordKeepsKeyIffMarker(id: string, gap: string, word: string, more: string)
    requires gap != "" && word != "" && more == id + gap + word && ('/' in id || '/' !in gap)
    requires (forall i :: 0 <= i < |gap| ==> Breaks(gap[i])) && forall i :: 0 <= i < |word| ==> !Breaks(word[i])
    ensures FamilyKey(more) == FamilyKey(id) <==> IsMarker(word)
  {
    assert AreSeparators(gap) by {
      forall i | 0 <= i < |gap| ensures IsSeparator(gap[i]) { SeparatorIff(gap[i]); }
    }
    assert IsToken(word) by {
      forall i | 0 <= i < |word| ensures !IsSeparator(word[i]) { SeparatorIff(word[i]); }
    }
    MarkerIff(word);
    if IsMarker(word) {
      KeyIgnoresAppendedMarker(id, gap, word, more);
    } else {
      OtherWordChangesKey(id, gap, word, more);
    }
  }

  lemma OtherWordChangesKey(id: string, gap: string, word: string, more: string)
    requires AreSeparators(gap) && gap != "" && IsToken(word) && Lower(word) !in QUANT_TOKENS && more == id + gap + word
    requires '/' in id || '/' !in gap
    ensures FamilyKey(more) != FamilyKey(id)
  {
    assert more == id + (gap + word);
    assert '/' !in word;
    RepoAppended(id, gap + word, more);
    TokensOfPieceAfter(Repo(id), gap, word, Repo(more));
    var ts := Tokens(Lower(Repo(id)));
    WithoutQuantConcat(ts, [Lower(word)], ts + [Lower(word)]);
    assert [Lower(word)][..0] == [];
    assert WithoutQuant([Lower(word)]) == [Lower(word)];
    OneMoreWord(WithoutQuant(ts), Lower(word));
    SameKeyIffSameTokens(more, id);
  }

  // ----- Names that are their own key, and the renamed models -----

  /** A single word in lower case that is no format marker is its own key. */
  lemma PlainNameIsKey(name: string)
    requires name != "" && NoCapitals(name) && !IsMarker(name) && forall i :: 0 <= i < |name| ==> !Breaks(name[i])
    ensures FamilyKey(name) == name
  {
    forall i | 0 <= i < |name| ensures !IsSeparator(name[i]) && LowerChar(name[i]) == name[i] {
      SeparatorIff(name[i]);
    }
    NoSlash(name);
    assert Lower(name) == name;
    TokensOfWord(name);
    MarkerIff(name);
    assert [name][..0] == [];
    assert WithoutQuant([name]) == [name];
    CanonicalTokens(name);
  }

  ghost predicate HasOtherWord(s: string) {
    exists i: nat, j: nat :: WordAt(s, i, j) && !IsMarker(s[i..j])
  }

  lemma OtherWordIff(s: string)
    ensures HasOtherWord(s) <==> WithoutQuant(Tokens(Lower(s))) != []
  {
    var rest := WithoutQuant(Tokens(Lower(s)));
    WithoutQuantTokens(Tokens(Lower(s)));
    if i: nat, j: nat :| WordAt(s, i, j) && !IsMarker(s[i..j]) {
      WordsLower(s, i, j);
      MarkerIff(s[i..j]);
      TokensAreWords(Lower(s), Lower(s)[i..j]);
      assert Lower(s[i..j]) in rest;
    }
    if rest != [] {
      var t := rest[0];
      assert t in rest;
      TokensAreWords(Lower(s), t);
      var i: nat, j: nat :| WordAt(Lower(s), i, j) && Lower(s)[i..j] == t;
      WordsLower(s, i, j);
      MarkerIff(s[i..j]);
    }
  }

  lemma MetaTokens(rest: string)
    ensures Tokens(Lower("Meta-Llama-" + rest)) == ["meta", "llama"] + Tokens(Lower(rest))
    ensures Tokens(Lower("Llama-" + rest)) == ["llama"] + Tokens(Lower(rest))
  {
    LowerAppend("Meta-Llama-", rest, "Meta-Llama-" + rest);
    LowerAppend("Llama-", rest, "Llama-" + rest);
    assert Lower("Meta-Llama-") == "meta-llama-" && Lower("Llama-") == "llama-";
    MetaLlamaTokens(Lower(rest), "meta-llama-" + Lower(rest));
    TokensConcat("llama", '-', Lower(rest), "llama-" + Lower(rest));
    TokensOfWord("llama");
  }

  lemma MetaWithoutQuant(r: seq<string>, q: seq<string>)
    requires q == WithoutQuant(r)
    ensures WithoutQuant(["meta", "llama"] + r) == ["meta", "llama"] + q
    ensures WithoutQuant(["llama"] + r) == ["llama"] + q
  {
    WithoutQuantConcat(["meta", "llama"], r, ["meta", "llama"] + r);
    WithoutQuantConcat(["llama"], r, ["llama"] + r);
    WithoutQuantFixed(["meta", "llama"]);
    WithoutQuantFixed(["llama"]);
  }

  /** "Meta-Llama-..." and "Llama-..." are one family exactly when something other than
      format markers follows. */
  lemma RenamedModelsShareKeyIff(org: string, rest: string)
    requires '/' !in org
    ensures FamilyKey(org + "/Meta-Llama-" + rest) == FamilyKey(org + "/Llama-" + rest) <==> HasOtherWord(rest)
  {
    var meta, llama := org + "/Meta-Llama-" + rest, org + "/Llama-" + rest;
    assert meta == org + ['/'] + ("Meta-Llama-" + rest) && llama == org + ['/'] + ("Llama-" + rest);
    RepoAfterOrg(org, "Meta-Llama-" + rest, meta);
    RepoAfterOrg(org, "Llama-" + rest, llama);
    var q := WithoutQuant(Tokens(Lower(rest)));
    MetaTokens(rest);
    MetaWithoutQuant(Tokens(Lower(rest)), q);
    OtherWordIff(rest);
    RenamedTokens(q);
    SameKeyIffSameTokens(meta, llama);
  }

  lemma RenamedTokens(q: seq<string>)
    ensures RenameTokens(["meta", "llama"] + q) == RenameTokens(["llama"] + q) <==> q != []
  {
    var meta, llama := ["meta", "llama"] + q, ["llama"] + q;
    if q != [] {
      assert meta[1..] == llama;
      assert llama[0] != "meta";
    } else {
      assert |meta| != |llama|;
    }
  }
}
