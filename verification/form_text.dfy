/**
 * The string handling the admin forms do before calling the API: JavaScript's
 * `split(',')`, `trim()`, `x || undefined` on text inputs and `parse || d` on
 * numeric ones.
 */
module FormText {
  import opened Common

  /** `s.split(',')`: the pieces between commas, in order; there is always at least one. */
  function Split(s: string): (r: seq<string>)
    ensures |r| >= 1
    ensures forall i :: 0 <= i < |r| ==> ',' !in r[i]
  {
    if s == [] then [""]
    else
      var rest := Split(s[1..]);
      if s[0] == ',' then [""] + rest
      else [[s[0]] + rest[0]] + rest[1..]
  }

  /** `xs.join(',')`. */
  function Join(xs: seq<string>): string {
    if xs == [] then ""
    else if |xs| == 1 then xs[0]
    else xs[0] + "," + Join(xs[1..])
  }

  /** Joining the pieces gives the string back. */
  lemma {:induction false} JoinSplit(s: string)
    ensures Join(Split(s)) == s
  {
    if s != [] {
      JoinSplit(s[1..]);
      var rest := Split(s[1..]);
      if s[0] == ',' {
        assert ([""] + rest)[1..] == rest;
        assert s == "," + s[1..];
      } else {
        var r := [[s[0]] + rest[0]] + rest[1..];
        if |rest| == 1 {
          assert s == [s[0]] + rest[0];
        } else {
          assert r[1..] == rest[1..];
          assert Join(rest) == rest[0] + "," + Join(rest[1..]);
          assert s == [s[0]] + s[1..];
        }
      }
    }
  }

  /** Splitting comma-free pieces joined with commas gives the pieces back. */
  lemma {:induction false} SplitJoin(xs: seq<string>)
    requires |xs| >= 1
    requires forall i :: 0 <= i < |xs| ==> ',' !in xs[i]
    ensures Split(Join(xs)) == xs
  {
    if |xs| == 1 {
      SplitPiece(xs[0], "");
      assert xs[0] + "" == xs[0];
      assert Split("") == [""];
      assert xs == [xs[0]];
    } else {
      var j := Join(xs[1..]);
      SplitJoin(xs[1..]);
      SplitPiece(xs[0], "," + j);
      assert ("," + j)[1..] == j;
      var u := Split("," + j);
      assert u == [""] + xs[1..];
      assert xs[0] + "," + j == xs[0] + ("," + j);
      assert xs[0] + u[0] == xs[0];
      assert xs == [xs[0]] + u[1..];
    }
  }

  /** A comma-free prefix becomes the first piece. */
  lemma {:induction false} SplitPiece(x: string, tail: string)
    requires ',' !in x
    requires tail == [] || tail[0] == ','
    ensures Split(x + tail) == [x + Split(tail)[0]] + Split(tail)[1..]
  {
    if x != [] {
      SplitPiece(x[1..], tail);
      var u := Split(tail);
      assert (x + tail)[1..] == x[1..] + tail;
      assert [x[0]] + (x[1..] + u[0]) == x + u[0];
    } else {
      var u := Split(tail);
      assert x + tail == tail;
      assert u[0] == "";
      assert x + u[0] == u[0];
      assert u == [u[0]] + u[1..];
    }
  }

  /**
   * What `trim()` removes: the ECMAScript white space and line terminators —
   * tab, line tabulation, form feed, space, no-break space, the byte order
   * mark, the Unicode space separators, and LF, CR, LS, PS.
   */
  const JsSpaces: set<char> := {
    '\t', '\U{000B}', '\U{000C}', ' ', '\U{00A0}', '\U{FEFF}',
    '\U{1680}', '\U{2000}', '\U{2001}', '\U{2002}', '\U{2003}', '\U{2004}', '\U{2005}',
    '\U{2006}', '\U{2007}', '\U{2008}', '\U{2009}', '\U{200A}', '\U{202F}', '\U{205F}', '\U{3000}',
    '\n', '\r', '\U{2028}', '\U{2029}'}

  predicate IsJsSpace(c: char) {
    c in JsSpaces
  }

  /** No white space at either end. */
  predicate Trimmed(s: string) {
    s == [] || (!IsJsSpace(s[0]) && !IsJsSpace(s[|s| - 1]))
  }

  function TrimStart(s: string): (r: string)
    ensures r == [] || !IsJsSpace(r[0])
    ensures |r| <= |s| && r == s[|s| - |r|..]
    ensures forall i :: 0 <= i < |s| - |r| ==> IsJsSpace(s[i])
  {
    if s != [] && IsJsSpace(s[0]) then TrimStart(s[1..]) else s
  }

  function TrimEnd(s: string): (r: string)
    ensures r == [] || !IsJsSpace(r[|r| - 1])
    ensures |r| <= |s| && r == s[..|r|]
    ensures forall i :: |r| <= i < |s| ==> IsJsSpace(s[i])
  {
    if s != [] && IsJsSpace(s[|s| - 1]) then TrimEnd(s[..|s| - 1]) else s
  }

  predicate AllSpace(s: string) {
    forall i :: 0 <= i < |s| ==> IsJsSpace(s[i])
  }

  /** `s` is `r` with white space before and after it. */
  predicate Padded(s: string, pre: string, r: string, post: string) {
    s == pre + r + post && AllSpace(pre) && AllSpace(post)
  }

  /** `s.trim()`: `s` without the white space at its ends; what is removed is all white space. */
  function Trim(s: string): (r: string)
    ensures Trimmed(r)
    ensures exists pre, post :: Padded(s, pre, r, post)
  {
    var front := TrimStart(s);
    var r := TrimEnd(front);
    Assemble(s, front, r);
    BothEndsTrimmed(front);
    r
  }

  /** A white-space prefix cut from `s`, then a white-space suffix cut from the rest, pads what is left. */
  lemma Assemble(s: string, front: string, r: string)
    requires |front| <= |s| && front == s[|s| - |front|..]
    requires forall i :: 0 <= i < |s| - |front| ==> IsJsSpace(s[i])
    requires |r| <= |front| && r == front[..|r|]
    requires forall i :: |r| <= i < |front| ==> IsJsSpace(front[i])
    ensures Padded(s, s[..|s| - |front|], r, front[|r|..])
  {
    var pre := s[..|s| - |front|];
    var post := front[|r|..];
    assert s == pre + front;
    assert front == r + post;
    assert AllSpace(pre) by {
      forall i | 0 <= i < |pre| ensures IsJsSpace(pre[i]) {
        assert pre[i] == s[i];
      }
    }
    assert AllSpace(post) by {
      forall i | 0 <= i < |post| ensures IsJsSpace(post[i]) {
        assert post[i] == front[|r| + i];
      }
    }
    assert pre + (r + post) == pre + r + post;
  }

  /** Trimming the end of a string that starts with no white space leaves both ends clean. */
  lemma BothEndsTrimmed(front: string)
    requires front == [] || !IsJsSpace(front[0])
    ensures Trimmed(TrimEnd(front))
  {
    var r := TrimEnd(front);
    if r != [] {
      assert r[0] == front[0];
    }
  }

  /** Trimming never brings in a character the string did not have. */
  lemma TrimWithin(s: string, c: char)
    requires c !in s
    ensures c !in Trim(s)
  {
    var r := Trim(s);
    var pre, post :| Padded(s, pre, r, post);
  }

  /** Trimming a string that has no white space at its ends changes nothing. */
  lemma TrimKeeps(s: string)
    requires Trimmed(s)
    ensures Trim(s) == s
  {
  }

  /** Trimming twice is trimming once. */
  lemma TrimIdempotent(s: string)
    ensures Trim(Trim(s)) == Trim(s)
  {
    TrimKeeps(Trim(s));
  }

  function TrimAll(xs: seq<string>): (r: seq<string>)
    ensures |r| == |xs|
    ensures forall i :: 0 <= i < |xs| ==> r[i] == Trim(xs[i])
  {
    seq(|xs|, i requires 0 <= i < |xs| => Trim(xs[i]))
  }

  lemma TrimAllWithin(xs: seq<string>)
    requires forall i :: 0 <= i < |xs| ==> ',' !in xs[i]
    ensures forall i :: 0 <= i < |xs| ==> ',' !in TrimAll(xs)[i]
  {
    forall i | 0 <= i < |xs| ensures ',' !in TrimAll(xs)[i] {
      TrimWithin(xs[i], ',');
    }
  }

  /**
   * A comma-separated form field: `v ? v.split(',').map(s => s.trim()) : []`.
   * An empty field is the empty list.
   */
  function ParseList(v: string): (r: seq<string>)
    ensures v == "" <==> r == []
    ensures forall i :: 0 <= i < |r| ==> Trimmed(r[i]) && ',' !in r[i]
  {
    if v == "" then []
    else
      var pieces := Split(v);
      TrimAllWithin(pieces);
      TrimAll(pieces)
  }

  /** The field `xs.join(',')` parses back to `xs` when the items are trimmed and comma-free and the field is not empty. */
  lemma ParseListJoin(xs: seq<string>)
    requires xs != [] && xs != [""]
    requires forall i :: 0 <= i < |xs| ==> Trimmed(xs[i]) && ',' !in xs[i]
    ensures ParseList(Join(xs)) == xs
  {
    SplitJoin(xs);
    JoinNonEmpty(xs);
    forall i | 0 <= i < |xs| ensures Trim(xs[i]) == xs[i] {
      TrimKeeps(xs[i]);
    }
    assert TrimAll(xs) == xs;
  }

  /** Only `[]` and `[""]` join to the empty field. */
  lemma JoinNonEmpty(xs: seq<string>)
    requires xs != [] && xs != [""]
    ensures Join(xs) != ""
  {
    if |xs| == 1 {
      assert xs == [xs[0]];
    } else {
      assert |Join(xs)| >= 1;
    }
  }

  /** The number of commas in `s`. */
  function Commas(s: string): nat {
    if s == [] then 0 else (if s[0] == ',' then 1 else 0) + Commas(s[1..])
  }

  /** `split(',')` gives one piece more than there are commas. */
  lemma {:induction false} SplitCount(s: string)
    ensures |Split(s)| == Commas(s) + 1
  {
    if s != [] {
      SplitCount(s[1..]);
    }
  }

  /** A non-empty field parses to one item more than it has commas; an empty one to none. */
  lemma ParseListCount(v: string)
    ensures |ParseList(v)| == if v == "" then 0 else Commas(v) + 1
  {
    if v != "" {
      SplitCount(v);
    }
  }

  /** `v || undefined` on a text input: the empty string is absent. */
  function NonEmpty(v: string): (r: Option<string>)
    ensures r.None? <==> v == ""
    ensures r.Some? ==> r.value == v
  {
    if v == "" then None else Some(v)
  }

  /** The form's `|| undefined` and the handlers' `|| null` agree: the API stores what the form sends. */
  lemma NonEmptyStored(v: string)
    ensures OrAbsent(NonEmpty(v)) == NonEmpty(v)
  {
  }

  /**
   * `parse(v) || fallback`, with `parse` giving None for NaN. The zero the
   * parse may give is falsy too, so it is replaced by the fallback.
   */
  function ParsedOr(parsed: Option<int>, fallback: int): (r: int)
    ensures r == fallback <==> (parsed.None? || parsed == Some(0) || parsed == Some(fallback))
    ensures r != fallback ==> parsed == Some(r)
  {
    if parsed.None? || parsed == Some(0) then fallback else parsed.value
  }
}
