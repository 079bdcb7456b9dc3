/** JSON Pointer reference tokens as section 3 of RFC 6901 defines them: a pointer is
    empty or a sequence of `/`-prefixed tokens. Escapes (`~0`, `~1`) are not decoded,
    since none of the pointers built here contain `~` unless the caller's name does. */
module JsonPointer {

  /** Splits `s` at every `/`; the result always has one more element than `s` has slashes. */
  function SplitOnSlash(s: string): (r: seq<string>)
    ensures |r| >= 1
    decreases |s|
  {
    if s == [] then [""]
    else if s[0] == '/' then [""] + SplitOnSlash(s[1..])
    else
      var rest := SplitOnSlash(s[1..]);
      [[s[0]] + rest[0]] + rest[1..]
  }

  function ReferenceTokens(pointer: string): seq<string>
    requires pointer == [] || pointer[0] == '/'
  {
    if pointer == [] then [] else SplitOnSlash(pointer[1..])
  }

  lemma {:induction false} SplitNoSlash(w: string)
    requires '/' !in w
    ensures SplitOnSlash(w) == [w]
    decreases |w|
  {
    if w != [] {
      SplitNoSlash(w[1..]);
      assert [w[0]] + w[1..] == w;
    }
  }

  lemma {:induction false} SplitAfterWord(w: string, rest: string)
    requires '/' !in w
    ensures SplitOnSlash(w + "/" + rest) == [w] + SplitOnSlash(rest)
    decreases |w|
  {
    var s := w + "/" + rest;
    if w == [] {
      assert s == "/" + rest;
      assert s[1..] == rest;
    } else {
      assert s[0] == w[0];
      assert s[1..] == w[1..] + "/" + rest;
      SplitAfterWord(w[1..], rest);
      assert [w[0]] + w[1..] == w;
    }
  }

  /** `"/" + a + "/" + b` addresses member `b` of member `a` when neither holds a slash. */
  lemma TwoTokens(a: string, b: string)
    requires '/' !in a && '/' !in b
    ensures ReferenceTokens("/" + a + "/" + b) == [a, b]
  {
    var p := "/" + a + "/" + b;
    assert p[1..] == a + "/" + b;
    SplitAfterWord(a, b);
    SplitNoSlash(b);
  }
}
