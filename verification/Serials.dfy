/** The list of disk serial numbers. */
module Serials {
  import opened Types

  const MAX_SERIAL: nat := 128

  predicate IsSeparator(c: char) {
    c == ' ' || c == '\t' || c == ','
  }

  predicate Separators(s: string) {
    forall k :: 0 <= k < |s| ==> IsSeparator(s[k])
  }

  /** What `strtok_r` can return: nonempty and free of separators. */
  predicate Token(s: string) {
    s != [] && forall k :: 0 <= k < |s| ==> !IsSeparator(s[k])
  }

  /** Length of the separator-free prefix. */
  function TokenLength(s: string): (n: nat)
    ensures n <= |s|
    ensures forall k :: 0 <= k < n ==> !IsSeparator(s[k])
    ensures n < |s| ==> IsSeparator(s[n])
  {
    if s == [] || IsSeparator(s[0]) then 0 else 1 + TokenLength(s[1..])
  }

  function Tokens(s: string): seq<string> {
    if s == [] then []
    else if IsSeparator(s[0]) then Tokens(s[1..])
    else
      var n := TokenLength(s);
      [s[..n]] + Tokens(s[n..])
  }

  // ----- print and parse -----

  /** `gaps[0]`, token, `gaps[1]`, token, ..., last gap. */
  function Join(tokens: seq<string>, gaps: seq<string>): string
    requires |gaps| == |tokens| + 1
  {
    if tokens == [] then gaps[0] else gaps[0] + (tokens[0] + Join(tokens[1..], gaps[1..]))
  }

  /** Gaps are separators, and the inner ones are not empty. */
  predicate Gaps(tokens: seq<string>, gaps: seq<string>) {
    && |gaps| == |tokens| + 1
    && (forall k :: 0 <= k < |gaps| ==> Separators(gaps[k]))
    && (forall k :: 0 < k < |tokens| ==> gaps[k] != [])
  }

  lemma {:induction false} SkipSeparators(gap: string, s: string)
    requires Separators(gap)
    ensures Tokens(gap + s) == Tokens(s)
  {
    if gap == [] {
      assert gap + s == s;
    } else {
      assert (gap + s)[1..] == gap[1..] + s;
      SkipSeparators(gap[1..], s);
    }
  }

  lemma {:induction false} TokenAhead(t: string, s: string)
    requires forall k :: 0 <= k < |t| ==> !IsSeparator(t[k])
    requires s == [] || IsSeparator(s[0])
    ensures TokenLength(t + s) == |t|
  {
    if t == [] {
      assert t + s == s;
    } else {
      assert (t + s)[1..] == t[1..] + s;
      TokenAhead(t[1..], s);
    }
  }

  /** Joining tokens with any separators and parsing gives the tokens back. */
  lemma {:induction false} JoinRoundTrip(tokens: seq<string>, gaps: seq<string>)
    requires Gaps(tokens, gaps) && forall k :: 0 <= k < |tokens| ==> Token(tokens[k])
    ensures Tokens(Join(tokens, gaps)) == tokens
    decreases |tokens|
  {
    if tokens == [] {
      SkipSeparators(gaps[0], []);
      assert gaps[0] + [] == gaps[0];
    } else {
      var t, rest := tokens[0], Join(tokens[1..], gaps[1..]);
      JoinRoundTrip(tokens[1..], gaps[1..]);
      SkipSeparators(gaps[0], t + rest);
      JoinHead(tokens[1..], gaps[1..]);
      TokenAhead(t, rest);
      assert (t + rest)[..|t|] == t && (t + rest)[|t|..] == rest;
      assert tokens == [t] + tokens[1..];
    }
  }

  /** After a token there is a separator or the end. */
  lemma JoinHead(tokens: seq<string>, gaps: seq<string>)
    requires |gaps| == |tokens| + 1 && Separators(gaps[0])
    requires tokens != [] ==> gaps[0] != []
    ensures Join(tokens, gaps) == [] || IsSeparator(Join(tokens, gaps)[0])
  {
  }

  lemma {:induction false} TokensAreTokens(s: string)
    ensures forall k :: 0 <= k < |Tokens(s)| ==> Token(Tokens(s)[k])
    decreases |s|
  {
    if s != [] {
      if IsSeparator(s[0]) {
        TokensAreTokens(s[1..]);
      } else {
        var n := TokenLength(s);
        TokensAreTokens(s[n..]);
      }
    }
  }

  /** Tokens are separated by spaces, tabs and commas, and by nothing else. */
  lemma OnlyTheseSeparate(c: char)
    ensures Tokens(['a', c, 'b']) == if c in " \t," then ["a", "b"] else [['a', c, 'b']]
  {
    var s := ['a', c, 'b'];
    assert s[1..] == [c, 'b'] && [c, 'b'][1..] == ['b'] && ['b'][1..] == [];
    assert TokenLength(['b']) == 1 + TokenLength([]) == 1;
    assert Tokens([]) == [] && ['b'][..1] == "b" && Tokens(['b']) == ["b"];
    if IsSeparator(c) {
      assert TokenLength([c, 'b']) == 0 && TokenLength(s) == 1;
      assert s[..1] == "a" && Tokens([c, 'b']) == Tokens(['b']);
    } else {
      assert TokenLength([c, 'b']) == 2 && TokenLength(s) == 3;
      assert s[..3] == s && s[3..] == [];
    }
  }

  // ----- the settings array -----

  /** The parsed list, padded to eight; None is -E2BIG. */
  function Parsed(s: string): Option<seq<string>> {
    var t := Tokens(s);
    if |t| > DISK_COUNT || exists k :: 0 <= k < |t| && |t[k]| >= MAX_SERIAL then None
    else Some(t + seq(DISK_COUNT - |t|, _ => ""))
  }

  /** Print and parse are inverse: up to eight short tokens come back in order,
      the other slots are empty, and any longer list or token is rejected. */
  lemma SerialsRoundTrip(tokens: seq<string>, gaps: seq<string>)
    requires Gaps(tokens, gaps) && forall k :: 0 <= k < |tokens| ==> Token(tokens[k])
    ensures var r := Parsed(Join(tokens, gaps));
            && (r.Some? <==> |tokens| <= 8 && forall k :: 0 <= k < |tokens| ==> |tokens[k]| < 128)
            && (r.Some? ==>
                  && |r.value| == 8
                  && r.value[..|tokens|] == tokens
                  && forall k :: |tokens| <= k < DISK_COUNT ==> r.value[k] == "")
  {
    JoinRoundTrip(tokens, gaps);
  }

  /** Every accepted text has a canonical form: rewriting its tokens with single
      spaces parses to the same slots. */
  lemma CanonicalForm(s: string, gaps: seq<string>)
    requires Gaps(Tokens(s), gaps)
    ensures Parsed(Join(Tokens(s), gaps)) == Parsed(s)
  {
    TokensAreTokens(s);
    JoinRoundTrip(Tokens(s), gaps);
  }

  /** `parse_serials`: clears the array, then stores one token after another. */
  method ParseSerials(text: string, serials: array<string>) returns (ok: bool)
    requires serials.Length == DISK_COUNT
    modifies serials
    ensures ok <==> Parsed(text).Some?
    ensures ok ==> serials[..] == Parsed(text).value
  {
    for k := 0 to DISK_COUNT
      invariant forall j :: 0 <= j < k ==> serials[j] == ""
    {
      serials[k] := "";
    }
    ghost var all := Tokens(text);
    var rest := text;
    var slot := 0;
    while true
      invariant 0 <= slot <= |all| && slot <= DISK_COUNT
      invariant Tokens(rest) == all[slot..]
      invariant forall j :: 0 <= j < slot ==> serials[j] == all[j] && |all[j]| < MAX_SERIAL
      invariant forall j :: slot <= j < DISK_COUNT ==> serials[j] == ""
      decreases |rest|
    {
      rest := SkipInPlace(rest);
      if rest == [] {
        break;
      }
      var n := TokenLength(rest);
      var token := rest[..n];
      assert Tokens(rest) == [token] + Tokens(rest[n..]);
      assert all[slot] == token;
      if slot >= DISK_COUNT || |token| >= MAX_SERIAL {
        return false;
      }
      serials[slot] := token;
      rest := rest[n..];
      slot := slot + 1;
    }
    assert |all| == slot;
    assert serials[..] == all + seq(DISK_COUNT - slot, _ => "");
    ok := true;
  }

  /** Leading separators do not matter. */
  method SkipInPlace(s: string) returns (r: string)
    ensures Tokens(r) == Tokens(s) && |r| <= |s|
    ensures r != [] ==> !IsSeparator(r[0])
  {
    r := s;
    while r != [] && IsSeparator(r[0])
      invariant Tokens(r) == Tokens(s) && |r| <= |s|
    {
      r := r[1..];
    }
  }
}
