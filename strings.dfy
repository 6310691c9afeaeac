/** String operations the handlers and scripts rely on: whitespace trimming
    (JavaScript `trim`, Python `strip`), ASCII lower-casing, prefix and
    substring tests, whitespace word splitting and joining. */
module Strings {

  /** The ASCII whitespace that `trim`/`strip` remove. */
  predicate IsSpace(c: char)
  {
    c == ' ' || c == '\t' || c == '\n' || c == '\r' || c == '\U{000B}' || c == '\U{000C}'
  }

  /** Drops leading whitespace. */
  function TrimStart(s: string): (r: string)
    ensures |r| <= |s| && r == s[|s| - |r|..]
    ensures r == [] || !IsSpace(r[0])
    ensures forall i :: 0 <= i < |s| - |r| ==> IsSpace(s[i])
  {
    if s != [] && IsSpace(s[0]) then TrimStart(s[1..]) else s
  }

  /** Drops trailing whitespace. */
  function TrimEnd(s: string): (r: string)
    ensures |r| <= |s| && r == s[..|r|]
    ensures r == [] || !IsSpace(r[|r| - 1])
    ensures forall i :: |r| <= i < |s| ==> IsSpace(s[i])
  {
    if s != [] && IsSpace(s[|s| - 1]) then TrimEnd(s[..|s| - 1]) else s
  }

  /** `s.trim()` / `s.strip()`: the slice of `s` between its leading and
      trailing whitespace. */
  function Trim(s: string): (r: string)
    ensures r == [] <==> forall i :: 0 <= i < |s| ==> IsSpace(s[i])
    ensures r != [] ==> !IsSpace(r[0]) && !IsSpace(r[|r| - 1])
    ensures exists i :: TrimmedAt(s, r, i)
  {
    TrimWitness(s);
    TrimEnd(TrimStart(s))
  }

  /** `r` is `s[i..i + |r|]` and everything around it is whitespace. */
  predicate TrimmedAt(s: string, r: string, i: int)
  {
    OccursAt(s, r, i) && AllSpace(s[..i]) && AllSpace(s[i + |r|..])
  }

  lemma TrimWitness(s: string)
    ensures TrimmedAt(s, TrimEnd(TrimStart(s)), |s| - |TrimStart(s)|)
  {
    var t := TrimStart(s);
    var r := TrimEnd(t);
    var i := |s| - |t|;
    assert OccursAt(s, r, i);
    assert AllSpace(s[..i]) by {
      var p := s[..i];
      forall k | 0 <= k < |p| ensures IsSpace(p[k]) { }
    }
    assert AllSpace(s[i + |r|..]) by {
      var u := s[i + |r|..];
      forall k | 0 <= k < |u| ensures IsSpace(u[k]) {
        assert u[k] == t[|r| + k];
      }
    }
  }

  /** Every character of `s` is whitespace. */
  predicate AllSpace(s: string)
  {
    forall k :: 0 <= k < |s| ==> IsSpace(s[k])
  }

  /** No character of `w` is whitespace. */
  predicate NoSpace(w: string)
  {
    forall k :: 0 <= k < |w| ==> !IsSpace(w[k])
  }

  /** A string that `trim()` reduces to "" (and so is falsy once trimmed). */
  predicate IsBlank(s: string)
  {
    Trim(s) == []
  }

  lemma TrimIdempotent(s: string)
    ensures Trim(Trim(s)) == Trim(s)
  {
  }

  function LowerChar(c: char): char
  {
    if 'A' <= c <= 'Z' then (c as int + 32) as char else c
  }

  /** ASCII `toLowerCase()` / `lower()`. */
  function Lower(s: string): (r: string)
    ensures |r| == |s|
  {
    seq(|s|, i requires 0 <= i < |s| => LowerChar(s[i]))
  }

  predicate StartsWith(s: string, prefix: string)
  {
    |prefix| <= |s| && s[..|prefix|] == prefix
  }

  /** `sub` occurs in `s` starting at index `i`. */
  predicate OccursAt(s: string, sub: string, i: int)
  {
    0 <= i <= |s| - |sub| && s[i..i + |sub|] == sub
  }

  /** `sub in s` / `s.includes(sub)`. */
  predicate Contains(s: string, sub: string)
  {
    exists i | 0 <= i <= |s| - |sub| :: OccursAt(s, sub, i)
  }

  /** Length of the run of non-whitespace characters at the start of `s`. */
  function TokenLength(s: string): (n: nat)
    ensures n <= |s|
    ensures forall i :: 0 <= i < n ==> !IsSpace(s[i])
    ensures n < |s| ==> IsSpace(s[n])
  {
    if s == [] || IsSpace(s[0]) then 0 else 1 + TokenLength(s[1..])
  }

  /** Python `s.split()`: the maximal runs of non-whitespace characters. */
  function Words(s: string): (r: seq<string>)
    ensures forall w :: w in r ==> w != [] && forall i :: 0 <= i < |w| ==> !IsSpace(w[i])
    decreases |s|
  {
    var t := TrimStart(s);
    if t == [] then []
    else
      var n := TokenLength(t);
      var w := t[..n];
      assert w != [] && forall i :: 0 <= i < |w| ==> !IsSpace(w[i]);
      var rest := Words(t[n..]);
      assert forall x :: x in [w] + rest ==> x == w || x in rest;
      [w] + rest
  }

  /** `w` is a maximal run of non-whitespace characters at index `i` of
      `s`, and only whitespace comes before it. */
  predicate FirstRunAt(s: string, i: int, w: string)
  {
    && 0 <= i <= |s| - |w| && AllSpace(s[..i]) && s[i..i + |w|] == w && w != [] && NoSpace(w)
    && (i + |w| == |s| || IsSpace(s[i + |w|]))
  }

  /** `ws` are the maximal runs of non-whitespace characters of `s`, in
      order: whitespace, then `ws[0]` followed by whitespace or the end,
      then the same for the rest of `ws`, then only whitespace. */
  ghost predicate SplitsInto(s: string, ws: seq<string>)
    decreases |ws|
  {
    if ws == [] then AllSpace(s)
    else exists i :: FirstRunAt(s, i, ws[0]) && SplitsInto(s[i + |ws[0]|..], ws[1..])
  }

  /** Leading whitespace ends at the first non-whitespace character. */
  lemma {:induction false} TrimStartAt(s: string, i: nat)
    requires i < |s| && AllSpace(s[..i]) && !IsSpace(s[i])
    ensures TrimStart(s) == s[i..]
  {
    if i > 0 {
      var u := s[1..];
      assert IsSpace(s[..i][0]);
      assert AllSpace(u[..i - 1]) by {
        var v := u[..i - 1];
        forall k | 0 <= k < |v| ensures IsSpace(v[k]) {
          assert v[k] == s[..i][k + 1];
        }
      }
      TrimStartAt(u, i - 1);
      assert u[i - 1..] == s[i..];
    }
  }

  /** The first run of a string that does not begin with whitespace ends
      where `TokenLength` says. */
  lemma RunIsToken(t: string, w: string)
    requires FirstRunAt(t, 0, w)
    ensures TokenLength(t) == |w| && t[..|w|] == w
  {
    assert t[..|w|] == w;
  }

  /** One step of the split: the first word of `s` and where the rest
      begins. */
  lemma WordsStep(s: string, i: nat, w: string)
    requires FirstRunAt(s, i, w)
    ensures Words(s) == [w] + Words(s[i + |w|..])
  {
    assert s[i] == w[0];
    TrimStartAt(s, i);
    var t := s[i..];
    assert FirstRunAt(t, 0, w) by {
      assert t[..|w|] == w;
      assert t[..0] == [];
    }
    RunIsToken(t, w);
    assert t[|w|..] == s[i + |w|..];
  }

  /** A string of whitespace has no words. */
  lemma NoWords(s: string)
    requires AllSpace(s)
    ensures Words(s) == []
  {
    var t := TrimStart(s);
    if t != [] {
      assert t[0] == s[|s| - |t|];
    }
  }

  /** The first word of a string with one, and where it begins. */
  lemma FirstWord(s: string)
    requires TrimStart(s) != []
    ensures FirstRunAt(s, |s| - |TrimStart(s)|, TrimStart(s)[..TokenLength(TrimStart(s))])
  {
    var t := TrimStart(s);
    var i := |s| - |t|;
    var n := TokenLength(t);
    assert t == s[i..];
    assert s[i..i + n] == t[..n];
    var p := s[..i];
    assert AllSpace(p) by {
      forall k | 0 <= k < |p| ensures IsSpace(p[k]) { }
    }
  }

  /** `Words` splits `s` into its maximal non-whitespace runs, in order. */
  lemma {:induction false} WordsSplits(s: string)
    ensures SplitsInto(s, Words(s))
    decreases |s|
  {
    var t := TrimStart(s);
    var i := |s| - |t|;
    if t == [] {
      AllSpaceTrimmed(s);
    } else {
      var w := t[..TokenLength(t)];
      FirstWord(s);
      var rest := s[i + |w|..];
      WordsStep(s, i, w);
      WordsSplits(rest);
      SplitsCons(s, i, w, Words(rest));
    }
  }

  lemma AllSpaceTrimmed(s: string)
    requires TrimStart(s) == []
    ensures AllSpace(s) && Words(s) == []
  {
  }

  lemma SplitsCons(s: string, i: int, w: string, ws: seq<string>)
    requires FirstRunAt(s, i, w) && SplitsInto(s[i + |w|..], ws)
    ensures SplitsInto(s, [w] + ws)
  {
    var v := [w] + ws;
    assert v[0] == w && v[1..] == ws;
  }

  /** A splitting into maximal runs is unique: it is `Words`. */
  lemma {:induction false} SplitsUnique(s: string, ws: seq<string>)
    requires SplitsInto(s, ws)
    ensures ws == Words(s)
    decreases |ws|
  {
    if ws == [] {
      NoWords(s);
    } else {
      var w := ws[0];
      var i :| FirstRunAt(s, i, w) && SplitsInto(s[i + |w|..], ws[1..]);
      var rest := s[i + |w|..];
      WordsStep(s, i, w);
      SplitsUnique(rest, ws[1..]);
      ConsSplit(ws);
    }
  }

  lemma ConsSplit(ws: seq<string>)
    requires ws != []
    ensures ws == [ws[0]] + ws[1..]
  {
  }

  /** Python `sep.join(xs)`. */
  function Join(xs: seq<string>, sep: string): string
  {
    if xs == [] then ""
    else if |xs| == 1 then xs[0]
    else xs[0] + sep + Join(xs[1..], sep)
  }
}
