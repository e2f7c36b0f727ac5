/** The few JavaScript `String.prototype` searches the email check relies on,
    for a single search character. */
module JsString {

  /** `s.indexOf(c)`: the position of the first `c`, or -1 when there is none. */
  function IndexOf(s: string, c: char): (r: int)
    ensures -1 <= r < |s|
    ensures r == -1 <==> c !in s
    ensures 0 <= r ==> s[r] == c && forall j :: 0 <= j < r ==> s[j] != c
  {
    if |s| == 0 then -1
    else if s[0] == c then 0
    else
      var k := IndexOf(s[1..], c);
      if k == -1 then -1 else k + 1
  }

  /** `s.lastIndexOf(c)`: the position of the last `c`, or -1 when there is none. */
  function LastIndexOf(s: string, c: char): (r: int)
    ensures -1 <= r < |s|
    ensures r == -1 <==> c !in s
    ensures 0 <= r ==> s[r] == c && forall j :: r < j < |s| ==> s[j] != c
  {
    if |s| == 0 then -1
    else if s[|s| - 1] == c then |s| - 1
    else
      var front := s[..|s| - 1];
      assert s == front + [s[|s| - 1]];
      LastIndexOf(front, c)
  }

  /** `s.startsWith(c)` for a one-character prefix. */
  predicate StartsWith(s: string, c: char) {
    |s| > 0 && s[0] == c
  }

  /** `s.endsWith(c)` for a one-character suffix. */
  predicate EndsWith(s: string, c: char) {
    |s| > 0 && s[|s| - 1] == c
  }

  /** In `local + [c] + rest` with no `c` in `local`, the first `c` is the
      one between the two parts. */
  lemma IndexOfSplit(local: string, c: char, rest: string)
    requires c !in local
    ensures IndexOf(local + [c] + rest, c) == |local|
  {
    var s := local + [c] + rest;
    assert s[|local|] == c;
    assert forall j :: 0 <= j < |local| ==> s[j] == local[j];
  }

  /** With the same split, that `c` is also the last one exactly when `rest`
      holds no `c`. */
  lemma LastIndexOfSplit(local: string, c: char, rest: string)
    requires c !in local
    ensures LastIndexOf(local + [c] + rest, c) == |local| <==> c !in rest
  {
    var s := local + [c] + rest;
    assert s[|local|] == c;
    assert forall j :: 0 <= j < |local| ==> s[j] == local[j];
    assert forall j :: 0 <= j < |rest| ==> s[|local| + 1 + j] == rest[j];
  }
}
