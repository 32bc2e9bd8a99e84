/** The two text operations that several modules use. */
module Text {
  predicate Contains(sub: string, s: string) {
    sub <= s || (s != "" && Contains(sub, s[1..]))
  }

  /** Upper case for ASCII letters. */
  function Upper(s: string): string {
    seq(|s|, i requires 0 <= i < |s| => if 'a' <= s[i] <= 'z' then s[i] - 'a' + 'A' else s[i])
  }
}
