/** Python string operations the scripts rely on. */
module Text {

  /** The ASCII characters at which `str.split()` splits. */
  predicate IsSpace(c: char) {
    c == ' ' || '\t' <= c <= '\r' || '\U{1c}' <= c <= '\U{1f}'
  }

  /** A nonempty run without white space: what `split()` keeps whole. */
  predicate IsWord(s: string) {
    s != "" && forall i :: 0 <= i < |s| ==> !IsSpace(s[i])
  }

  /** `s.split()`, with `word` the characters read since the last space. */
  function WordsFrom(word: string, s: string): seq<string>
    decreases s
  {
    if s == "" then (if word == "" then [] else [word])
    else if IsSpace(s[0]) then (if word == "" then [] else [word]) + WordsFrom("", s[1..])
    else WordsFrom(word + [s[0]], s[1..])
  }

  function Words(s: string): seq<string> {
    WordsFrom("", s)
  }

  lemma {:induction false} ReadWord(before: string, word: string, rest: string)
    requires forall i :: 0 <= i < |word| ==> !IsSpace(word[i])
    ensures WordsFrom(before, word + rest) == WordsFrom(before + word, rest)
    decreases word
  {
    if word == "" {
      assert word + rest == rest && before + word == before;
    } else {
      assert (word + rest)[1..] == word[1..] + rest;
      assert before + word == before + [word[0]] + word[1..];
      ReadWord(before + [word[0]], word[1..], rest);
    }
  }

  /** Two words with blanks between them and a final newline split into just these two. */
  lemma TwoWords(a: string, b: string)
    requires IsWord(a) && IsWord(b)
    ensures Words(a + "  " + b + "\n") == [a, b]
  {
    assert a + "  " + b + "\n" == a + ("  " + b + "\n");
    ReadWord("", a, "  " + b + "\n");
    assert ("  " + b + "\n")[1..] == " " + b + "\n";
    assert (" " + b + "\n")[1..] == b + "\n";
    ReadWord("", b, "\n");
    assert "" + a == a && "" + b == b;
    assert WordsFrom(b, "\n") == [b] + WordsFrom("", "\n"[1..]);
  }

  predicate FoundAt(s: string, needle: string, i: int) {
    0 <= i <= |s| - |needle| && s[i..i + |needle|] == needle
  }

  lemma CharOf(s: string, part: string, i: int, k: nat)
    requires k < |part|
    ensures FoundAt(s, part, i) ==> 0 <= i && i + k < |s| && s[i + k] == part[k]
  {
    if FoundAt(s, part, i) {
      assert s[i + k] == s[i..i + |part|][k];
    }
  }

  /** `needle in s` */
  predicate Contains(s: string, needle: string) {
    exists i :: 0 <= i <= |s| && FoundAt(s, needle, i)
  }

  /** `s.endswith(suffix)` */
  predicate EndsWith(s: string, suffix: string) {
    |suffix| <= |s| && s[|s| - |suffix|..] == suffix
  }

  lemma ContainsIn(before: string, needle: string, after: string)
    ensures Contains(before + needle + after, needle)
  {
    assert FoundAt(before + needle + after, needle, |before|);
  }
}
