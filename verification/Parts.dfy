/** Texts put together, and what stands where in them. */
module Parts {
  /** `n` of one character. */
  function Times(c: char, n: nat): (s: string)
    ensures |s| == n && forall i :: 0 <= i < n ==> s[i] == c
  {
    if n == 0 then "" else [c] + Times(c, n - 1)
  }

  /** `part` stands in `line` at `at`. */
  predicate Stands(line: string, at: nat, part: string) {
    at + |part| <= |line| && line[at..at + |part|] == part
  }

  lemma StandsThen(line: string, at: nat, part: string, rest: string)
    requires Stands(line, at, part + rest)
    ensures Stands(line, at, part) && Stands(line, at + |part|, rest)
  {
    var whole := line[at..at + |part + rest|];
    assert line[at..at + |part|] == whole[..|part|] == part;
    assert line[at + |part|..at + |part| + |rest|] == whole[|part|..] == rest;
  }

  lemma ThenStands(line: string, at: nat, part: string, rest: string)
    requires Stands(line, at, part) && Stands(line, at + |part|, rest)
    ensures Stands(line, at, part + rest)
  {
    assert line[at..at + |part + rest|] == line[at..at + |part|] + line[at + |part|..at + |part| + |rest|];
  }

  lemma StandsOne(line: string, at: nat, c: char)
    ensures Stands(line, at, [c]) <==> at < |line| && line[at] == c
  {
    if at < |line| {
      assert line[at..at + 1] == [line[at]];
    }
  }

  lemma StandsAs(line: string, at: nat, part: string)
    requires Stands(line, at, part)
    ensures at + |part| <= |line| && line[at..at + |part|] == part
  {
  }

  lemma SliceStands(line: string, from: nat, to: nat)
    requires from <= to <= |line|
    ensures Stands(line, from, line[from..to])
  {
  }

  lemma Regrouped(a: string, b: string, c: string, d: string)
    ensures a + b + c + d == a + (b + (c + d)) && a + (b + c) == a + b + c
  {
  }

  lemma Around(before: string, s: string, after: string)
    ensures var line := before + s + after;
            && Stands(line, |before|, s) && line[..|before|] == before && line[|before| + |s|..] == after
            && (before != "" ==> line[|before| - 1] == before[|before| - 1])
  {
  }

  lemma SlicesOf(line: string, at: nat, end: nat, k: nat)
    requires at <= end <= |line| && k <= end - at
    ensures line[at..end][..k] == line[at..at + k] && line[at..end][k..] == line[at + k..end]
  {
  }

  lemma Alone(s: string)
    ensures "" + s + "" == s
  {
  }

  lemma StandsFirst(line: string, at: nat, s: string)
    requires Stands(line, at, s) && s != ""
    ensures at < |line| && line[at] == s[0]
  {
    assert line[at..at + |s|][0] == line[at];
  }

  /** What stands somewhere stands there in two parts. */
  lemma Cut(line: string, at: nat, s: string, k: nat)
    requires Stands(line, at, s) && k <= |s|
    ensures Stands(line, at, s[..k]) && Stands(line, at + k, s[k..]) && at + |s| <= |line|
    ensures k < |s| ==> line[at + k] == s[k]
  {
    assert s == s[..k] + s[k..];
    StandsThen(line, at, s[..k], s[k..]);
    assert k < |s| ==> line[at..at + |s|][k] == line[at + k];
  }

  lemma RestStarts(line: string, end: nat, after: string)
    requires end <= |line| && line[end..] == after
    ensures end < |line| <==> after != ""
    ensures after != "" ==> line[end] == after[0]
  {
  }
}
