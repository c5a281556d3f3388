/**
 * The intercepting proxy's rewrite: every word of a chat line that looks like
 * a Boguscoin address is replaced by Tony's address.
 */
module Proxy {
  import opened Text

  const TONYS_ACCOUNT := "7YWHMfk9JZe0LM0g1ZauHuiSxhI"

  /** A Boguscoin address: starts with '7', 26 to 35 bytes long, letters and digits only. */
  predicate IsAddress(word: string)
  {
    |word| > 0 && word[0] == '7' && 26 <= Utf8Len(word) <= 35 && AllAlphanumeric(word)
  }

  function Rewrite(word: string): string
  {
    if IsAddress(word) then TONYS_ACCOUNT else word
  }

  /** The `map` step: each word rewritten on its own. */
  function RewriteAll(words: seq<string>): (r: seq<string>)
    ensures |r| == |words| && forall i :: 0 <= i < |words| ==> r[i] == Rewrite(words[i])
  {
    if words == [] then [] else RewriteAll(words[..|words| - 1]) + [Rewrite(words[|words| - 1])]
  }

  predicate EndsWithNewline(s: string)
  {
    |s| > 0 && s[|s| - 1] == '\n'
  }

  /** The rewritten line without the final newline: the words of the trimmed line, rewritten and rejoined with single spaces. */
  function Body(message: string): string
  {
    Join(RewriteAll(Split(TrimEnd(message), ' ')), [' '])
  }

  /** `intercept_message`: the rewritten words, followed by a newline exactly when the line had one. */
  function Intercept(message: string): (r: string)
    ensures EndsWithNewline(r) <==> EndsWithNewline(message)
  {
    BodyEnd(message);
    if EndsWithNewline(message) then Body(message) + "\n" else Body(message)
  }

  lemma TonysAccountIsAddress()
    ensures IsAddress(TONYS_ACCOUNT) && ' ' !in TONYS_ACCOUNT
  {
    TonysAccountAscii();
    AsciiUtf8Len(TONYS_ACCOUNT);
    TonysAccountAlphanumeric();
  }

  lemma TonysAccountAscii()
    ensures forall i :: 0 <= i < |TONYS_ACCOUNT| ==> TONYS_ACCOUNT[i] as int < 0x80
  {
  }

  lemma TonysAccountAlphanumeric()
    ensures AllAlphanumeric(TONYS_ACCOUNT)
  {
  }

  /** Only addresses other than Tony's own change, and those become exactly Tony's. */
  lemma RewriteChanges(word: string)
    ensures Rewrite(word) != word <==> IsAddress(word) && word != TONYS_ACCOUNT
    ensures Rewrite(word) != word ==> Rewrite(word) == TONYS_ACCOUNT
    ensures Rewrite(Rewrite(word)) == Rewrite(word)
  {
    TonysAccountIsAddress();
  }

  /** The line printed after the rewrite has no trailing whitespace except the kept newline. */
  lemma BodyEnd(message: string)
    ensures var b := Body(message); b == [] || !IsWhitespace(b[|b| - 1])
  {
    JoinedEnd(TrimEnd(message), Split(TrimEnd(message), ' '));
  }

  /** Rewriting the words of a text that ends in a non-whitespace character and rejoining them keeps that property. */
  lemma JoinedEnd(t: string, parts: seq<string>)
    requires |parts| >= 1 && Join(parts, [' ']) == t
    requires t == [] || !IsWhitespace(t[|t| - 1])
    ensures var b := Join(RewriteAll(parts), [' ']); b == [] || !IsWhitespace(b[|b| - 1])
  {
    var words := RewriteAll(parts);
    JoinEnd(parts, [' ']);
    JoinEnd(words, [' ']);
    var last := parts[|parts| - 1];
    if |last| > 0 {
      RewriteEnd(last);
    } else {
      assert Rewrite(last) == last;
    }
  }

  /** A word ending in a non-whitespace character still does so after the rewrite. */
  lemma RewriteEnd(word: string)
    requires |word| > 0 && !IsWhitespace(word[|word| - 1])
    ensures var w := Rewrite(word); |w| > 0 && !IsWhitespace(w[|w| - 1])
  {
    assert TONYS_ACCOUNT[|TONYS_ACCOUNT| - 1] == 'I';
  }

  /**
   * How a join ends: with the last word's last character when that word is
   * not empty, and that word is not empty when the join ends in something
   * other than the separator.
   */
  lemma {:induction false} JoinEnd(words: seq<string>, sep: string)
    requires |words| >= 1 && |sep| > 0
    ensures var j := Join(words, sep); var w := words[|words| - 1];
      && (|w| > 0 ==> |j| > 0 && j[|j| - 1] == w[|w| - 1])
      && (|j| > 0 && j[|j| - 1] != sep[|sep| - 1] ==> |w| > 0)
  {
    if |words| > 1 {
      var rest := words[1..];
      JoinEnd(rest, sep);
      var j := Join(words, sep);
      var k := Join(rest, sep);
      assert j == words[0] + sep + k;
      assert rest[|rest| - 1] == words[|words| - 1];
      assert |k| > 0 ==> j[|j| - 1] == k[|k| - 1];
      assert |k| == 0 ==> j[|j| - 1] == sep[|sep| - 1];
    }
  }

  /** The output's space-separated words are the input's words, one for one, each rewritten. */
  lemma InterceptWords(message: string)
    ensures Split(Body(message), ' ') == RewriteAll(Split(TrimEnd(message), ' '))
  {
    var words := RewriteAll(Split(TrimEnd(message), ' '));
    TonysAccountIsAddress();
    assert forall i :: 0 <= i < |words| ==> ' ' !in words[i];
    SplitJoin(words, ' ');
  }

  lemma TrimEndOfBody(b: string)
    requires b == [] || !IsWhitespace(b[|b| - 1])
    ensures TrimEnd(b) == b && TrimEnd(b + "\n") == b
  {
    assert (b + "\n")[..|b|] == b;
  }

  /** Rewriting each word twice is rewriting it once. */
  lemma RewriteAllIdempotent(words: seq<string>)
    ensures RewriteAll(RewriteAll(words)) == RewriteAll(words)
  {
    forall i | 0 <= i < |words| ensures Rewrite(Rewrite(words[i])) == Rewrite(words[i]) {
      RewriteChanges(words[i]);
    }
  }

  /** The rewritten line's own rewrite is itself. */
  lemma BodyIdempotent(message: string)
    ensures Body(Intercept(message)) == Body(message)
  {
    var b := Body(message);
    BodyEnd(message);
    TrimEndOfBody(b);
    assert TrimEnd(Intercept(message)) == b;
    InterceptWords(message);
    RewriteAllIdempotent(Split(TrimEnd(message), ' '));
  }

  /** Tony's address is itself an address, so rewriting twice is rewriting once. */
  lemma InterceptIdempotent(message: string)
    ensures Intercept(Intercept(message)) == Intercept(message)
  {
    BodyIdempotent(message);
  }
}
