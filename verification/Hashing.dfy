/** The hash under both chains: SHA-256 in hex over UTF-8. Nothing is assumed of it but the
    shape of its output; collisions are named where they matter. */
module Hashing {
  type Hash = string -> string

  predicate IsHex(s: string) {
    |s| == 64 && forall i :: 0 <= i < |s| ==> '0' <= s[i] <= '9' || 'a' <= s[i] <= 'f'
  }

  ghost predicate HexHash(h: Hash) {
    forall x :: IsHex(h(x))
  }

  /** The hash does not collide on these particular texts. */
  ghost predicate NoCollision(h: Hash, texts: set<string>) {
    forall x, y :: x in texts && y in texts && h(x) == h(y) ==> x == y
  }

  /** A link is empty or 64 hex characters and a canonical object starts with a brace, so the
      two parts of a hashed text cannot run into each other. */
  lemma SplitPreimage(p: string, s: string, q: string, t: string)
    requires (p == "" || IsHex(p)) && (q == "" || IsHex(q)) && p + s == q + t
    requires s != "" && s[0] == '{' && t != "" && t[0] == '{'
    ensures p == q && s == t
  {
    assert (p + s)[0] == (q + t)[0];
    assert |p| == |q|;
    assert p == (p + s)[..|p|] == (q + t)[..|q|] == q;
    assert s == (p + s)[|p|..] == (q + t)[|q|..] == t;
  }
}
