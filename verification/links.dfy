/**
 * `_extract_links` of the backend tasks (`backend/app/tasks.py`): the wiki
 * links `[[name]]` of a note, found by `re.findall(r"\[\[(.+?)\]\]", text)`.
 * The regular expression is written out as a left-to-right scan: at each
 * position a match needs `[[`, then the shortest non-empty run of characters
 * other than a newline that is followed by `]]`; after a match the scan
 * resumes behind its `]]`, otherwise one character further on.
 */
module Links {

  /** `]]` starts at offset `k`. */
  predicate CloseAt(text: string, k: nat) {
    k + 2 <= |text| && text[k] == ']' && text[k + 1] == ']'
  }

  /** `.` in a Python pattern matches anything but a newline. */
  predicate NoNewline(s: string) {
    forall i :: 0 <= i < |s| ==> s[i] != '\n'
  }

  /**
   * The lazy `(.+?)\]\]` with the capture starting at `s`, trying capture ends
   * `k, k + 1, …`: the end of the shortest capture, or -1 when there is none.
   */
  function LazyEnd(text: string, s: nat, k: nat): (r: int)
    requires s < k && k - 1 <= |text| && NoNewline(text[s..k - 1])
    ensures r == -1 || (k <= r && CloseAt(text, r) && NoNewline(text[s..r]))
    ensures forall m :: k <= m <= |text| && (r == -1 || m < r) && NoNewline(text[s..m]) ==> !CloseAt(text, m)
    decreases |text| + 1 - k
  {
    if k > |text| then -1
    else if text[k - 1] == '\n' then
      assert forall m :: k <= m <= |text| ==> text[s..m][k - 1 - s] == '\n';
      -1
    else
      assert text[s..k] == text[s..k - 1] + [text[k - 1]];
      if CloseAt(text, k) then k else LazyEnd(text, s, k + 1)
  }

  predicate HasOpen(text: string) {
    exists i :: 0 <= i < |text| - 1 && text[i] == '[' && text[i + 1] == '['
  }

  /** `re.findall(r"\[\[(.+?)\]\]", text)`: the captures of the matches, left to right. */
  function Links(text: string): (r: seq<string>)
    ensures forall i :: 0 <= i < |r| ==> r[i] != "" && NoNewline(r[i])
    ensures !HasOpen(text) ==> r == []
    decreases |text|
  {
    if |text| < 2 then []
    else if text[0] == '[' && text[1] == '[' then
      var e := LazyEnd(text, 2, 3);
      if e >= 0 then [text[2..e]] + Links(text[e + 2..])
      else Links(text[1..])
    else
      assert HasOpen(text[1..]) ==> HasOpen(text) by {
        if HasOpen(text[1..]) {
          var i :| 0 <= i < |text[1..]| - 1 && text[1..][i] == '[' && text[1..][i + 1] == '[';
          assert text[i + 1] == '[' && text[i + 2] == '[';
        }
      }
      Links(text[1..])
  }

  /** A link name the pattern reads back whole: non-empty, one line, no ']'. */
  predicate PlainName(c: string) {
    c != "" && NoNewline(c) && forall i :: 0 <= i < |c| ==> c[i] != ']'
  }

  /** The text `[[c1]][[c2]]…`. */
  function Wiki(cs: seq<string>): string {
    if cs == [] then "" else "[[" + cs[0] + "]]" + Wiki(cs[1..])
  }

  /** A link followed by anything is read as that link, then the links of the rest. */
  lemma LinkThenRest(c: string, rest: string)
    requires PlainName(c)
    ensures Links("[[" + c + "]]" + rest) == [c] + Links(rest)
  {
    var text := "[[" + c + "]]" + rest;
    var e := 2 + |c|;
    assert text[2..e] == c;
    assert text[e + 2..] == rest;
    assert CloseAt(text, e);
    assert NoNewline(text[2..e]);
    forall m | 3 <= m < e ensures !CloseAt(text, m) {
      assert text[m] == c[m - 2];
    }
    var r := LazyEnd(text, 2, 3);
    assert r == e;
  }

  /** Names written as wiki links are read back in order. */
  lemma {:induction false} WikiRoundTrip(cs: seq<string>)
    requires forall i :: 0 <= i < |cs| ==> PlainName(cs[i])
    ensures Links(Wiki(cs)) == cs
  {
    if cs != [] {
      WikiRoundTrip(cs[1..]);
      LinkThenRest(cs[0], Wiki(cs[1..]));
    }
  }
}
