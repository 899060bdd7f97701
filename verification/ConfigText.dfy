/** Configuration lines: trimming, comments and quotes, on C strings in place. */
module ConfigText {
  import opened Types

  // ----- what a line means -----

  predicate IsSpace(c: char) {
    c == ' ' || ('\t' <= c <= '\r')
  }

  predicate IsQuote(c: char) {
    c == '\'' || c == '"'
  }

  predicate Spaces(s: string) {
    forall k :: 0 <= k < |s| ==> IsSpace(s[k])
  }

  function TrimLeft(s: string): string {
    if s != [] && IsSpace(s[0]) then TrimLeft(s[1..]) else s
  }

  function TrimRight(s: string): string {
    if s != [] && IsSpace(s[|s| - 1]) then TrimRight(s[..|s| - 1]) else s
  }

  function Trim(s: string): string {
    TrimRight(TrimLeft(s))
  }

  /** The quote that is open after reading `c`. */
  function QuoteAfter(quote: Option<char>, c: char): Option<char> {
    if IsQuote(c) && (quote.None? || quote == Some(c)) then (if quote.Some? then None else Some(c)) else quote
  }

  /** A `#` outside quotes starts a comment. */
  predicate StartsComment(quote: Option<char>, c: char) {
    c == '#' && quote.None?
  }

  /** `s` without its comment, when `quote` is open at its start. */
  function Uncommented(s: string, quote: Option<char>): string {
    if s == [] || StartsComment(quote, s[0]) then []
    else [s[0]] + Uncommented(s[1..], QuoteAfter(quote, s[0]))
  }

  /** One pair of equal quotes around the text is removed. */
  function Unquoted(s: string): string {
    if |s| >= 2 && IsQuote(s[0]) && s[|s| - 1] == s[0] then s[1..|s| - 1] else s
  }

  function ConfigValue(s: string): string {
    Unquoted(Trim(Uncommented(s, None)))
  }

  /** Position of the first `=`, or the length when there is none. */
  function EqualsAt(s: string): (i: nat)
    ensures i <= |s|
    ensures i < |s| ==> s[i] == '='
    ensures forall k :: 0 <= k < i ==> s[k] != '='
  {
    if s == [] || s[0] == '=' then 0 else 1 + EqualsAt(s[1..])
  }

  /** Key and value of a line; None when the line is skipped. */
  function ParseLine(line: string): Option<(string, string)> {
    var text := Trim(line);
    if text == [] || text[0] == '#' || "declare " <= text then None
    else
      var i := EqualsAt(text);
      if i == |text| then None else Some((Trim(text[..i]), ConfigValue(text[i + 1..])))
  }

  // ----- round trips -----

  lemma {:induction false} TrimLeftSpaces(pre: string, s: string)
    requires Spaces(pre)
    ensures TrimLeft(pre + s) == TrimLeft(s)
  {
    if pre == [] {
      assert pre + s == s;
    } else {
      TrimLeftSpaces(pre[1..], s);
      assert (pre + s)[1..] == pre[1..] + s;
    }
  }

  lemma {:induction false} TrimRightSpaces(s: string, post: string)
    requires Spaces(post)
    ensures TrimRight(s + post) == TrimRight(s)
  {
    if post == [] {
      assert s + post == s;
    } else {
      TrimRightSpaces(s, post[..|post| - 1]);
      assert (s + post)[..|s + post| - 1] == s + post[..|post| - 1];
    }
  }

  /** Text that begins and ends with a non-space. */
  predicate Tight(s: string) {
    s != [] && !IsSpace(s[0]) && !IsSpace(s[|s| - 1])
  }

  lemma TrimPadded(pre: string, s: string, post: string)
    requires Spaces(pre) && Spaces(post) && (Tight(s) || s == [])
    ensures Trim(pre + s + post) == s
  {
    assert pre + s + post == pre + (s + post);
    TrimLeftSpaces(pre, s + post);
    if s != [] {
      assert (s + post)[0] == s[0];
      TrimRightSpaces(s, post);
    } else {
      assert s + post == post + [];
      TrimLeftSpaces(post, []);
    }
  }

  /** Blanks, tabs, line ends, vertical tabs and form feeds are trimmed at both ends,
      and nothing else. */
  lemma OnlyTheseAreTrimmed(c: char)
    ensures Trim([c, 'x', c]) == if c == ' ' || 9 <= c as int <= 13 then "x" else [c, 'x', c]
  {
    assert [c, 'x', c][1..] == ['x', c] && ['x', c][..1] == "x";
    assert TrimLeft(['x', c]) == ['x', c] && TrimRight("x") == "x";
  }

  /** Plain text: outside quotes it neither opens one nor starts a comment;
      inside a quote it does not close it. */
  predicate Inert(s: string, quote: Option<char>) {
    forall k :: 0 <= k < |s| ==> QuoteAfter(quote, s[k]) == quote && !StartsComment(quote, s[k])
  }

  lemma {:induction false} UncommentedInert(s: string, t: string, quote: Option<char>)
    requires Inert(s, quote)
    ensures Uncommented(s + t, quote) == s + Uncommented(t, quote)
  {
    if s == [] {
      assert s + t == t;
    } else {
      assert (s + t)[1..] == s[1..] + t;
      UncommentedInert(s[1..], t, quote);
    }
  }

  /** Nothing, or a comment. */
  predicate Comment(s: string) {
    s != [] ==> s[0] == '#'
  }

  /** A quoted value with padding and an optional comment. */
  function Quoted(pre: string, q: char, v: string, post: string, comment: string): string {
    pre + ([q] + (v + ([q] + (post + comment))))
  }

  lemma UncommentedQuote(q: char, v: string, tail: string)
    requires IsQuote(q) && q !in v
    ensures Uncommented([q] + (v + ([q] + tail)), None) == [q] + v + [q] + Uncommented(tail, None)
  {
    var rest := v + ([q] + tail);
    assert ([q] + rest)[1..] == rest;
    UncommentedInert(v, [q] + tail, Some(q));
    assert ([q] + tail)[1..] == tail;
    assert Uncommented([q] + tail, Some(q)) == [q] + Uncommented(tail, None);
  }

  lemma UncommentedQuoted(pre: string, q: char, v: string, post: string, comment: string)
    requires Spaces(pre) && Spaces(post) && IsQuote(q) && q !in v && Comment(comment)
    ensures Uncommented(Quoted(pre, q, v, post, comment), None) == pre + ([q] + v + [q]) + post
  {
    UncommentedInert(pre, [q] + (v + ([q] + (post + comment))), None);
    UncommentedQuote(q, v, post + comment);
    UncommentedInert(post, comment, None);
    assert Uncommented(comment, None) == [];
  }

  /** Any value that does not contain the chosen quote survives quoting exactly:
      inner and outer spaces, `#`, and the other kind of quote included. */
  lemma QuotingRoundTrip(pre: string, q: char, v: string, post: string, comment: string)
    requires Spaces(pre) && Spaces(post) && (q == '\'' || q == '"') && q !in v && Comment(comment)
    ensures ConfigValue(Quoted(pre, q, v, post, comment)) == v
  {
    UncommentedQuoted(pre, q, v, post, comment);
    var s := [q] + v + [q];
    TrimPadded(pre, s, post);
    assert s[1..|s| - 1] == v;
  }

  /** A trimmed value without quotes or `#` needs no quoting. */
  lemma PlainRoundTrip(pre: string, v: string, post: string, comment: string)
    requires Spaces(pre) && Spaces(post) && Comment(comment) && (v == [] || Tight(v))
    requires forall k :: 0 <= k < |v| ==> v[k] != '\'' && v[k] != '"' && v[k] != '#'
    ensures ConfigValue(pre + v + post + comment) == v
  {
    assert pre + v + post + comment == (pre + v + post) + comment;
    UncommentedInert(pre + v + post, comment, None);
    assert Uncommented(comment, None) == [];
    assert pre + v + post + [] == pre + v + post;
    TrimPadded(pre, v, post);
  }

  // ----- whole lines -----

  /** Trimming a line that ends in a quoted value leaves a line of that form. */
  lemma TrimmedTail(s: string, post: string, comment: string) returns (post': string, comment': string)
    requires s != [] && !IsSpace(s[|s| - 1]) && Spaces(post) && Comment(comment)
    ensures Spaces(post') && Comment(comment')
    ensures TrimRight(s + (post + comment)) == s + (post' + comment')
  {
    if comment == [] {
      post', comment' := [], [];
      assert post + comment == post && s + ([] + []) == s;
      TrimRightSpaces(s, post);
    } else {
      post', comment' := post, TrimRight(comment);
      TrimRightKeepsHead(comment);
      TrimRightAppend(s + post, comment);
      assert s + (post + comment) == (s + post) + comment;
      assert s + (post + comment') == (s + post) + comment';
    }
  }

  lemma {:induction false} TrimRightKeepsHead(s: string)
    requires s != [] && !IsSpace(s[0])
    ensures TrimRight(s) != [] && TrimRight(s)[0] == s[0]
  {
    if IsSpace(s[|s| - 1]) {
      TrimRightKeepsHead(s[..|s| - 1]);
    }
  }

  lemma {:induction false} TrimRightAppend(s: string, t: string)
    requires TrimRight(t) != []
    ensures TrimRight(s + t) == s + TrimRight(t)
  {
    if IsSpace(t[|t| - 1]) {
      TrimRightAppend(s, t[..|t| - 1]);
      assert (s + t)[..|s + t| - 1] == s + t[..|t| - 1];
    }
  }

  lemma {:induction false} EqualsAtFirst(s: string, t: string)
    requires '=' !in s
    ensures EqualsAt(s + (['='] + t)) == |s|
  {
    if s == [] {
      assert s + (['='] + t) == ['='] + t;
    } else {
      EqualsAtFirst(s[1..], t);
      assert (s + (['='] + t))[1..] == s[1..] + (['='] + t);
    }
  }

  /** A key the parser can return, unless it looks like a declaration. */
  predicate Key(k: string) {
    Tight(k) && '=' !in k && k[0] != '#'
  }

  /** Writing `key = 'value' # comment` with any padding and reading it back
      gives the same key and value. */
  lemma LineRoundTrip(indent: string, key: string, gap: string, pre: string, q: char, v: string,
                      post: string, comment: string)
    requires Key(key) && Spaces(indent) && Spaces(gap) && !("declare " <= key + gap)
    requires Spaces(pre) && Spaces(post) && (q == '\'' || q == '"') && q !in v && Comment(comment)
    ensures ParseLine(indent + (key + gap + ['='] + Quoted(pre, q, v, post, comment))) == Some((key, v))
  {
    hide Trim, ConfigValue, EqualsAt, Spaces, Comment, ParseLine;
    var line := key + gap + ['='] + Quoted(pre, q, v, post, comment);
    var post', comment' := TrimmedLine(indent, key + gap + ['='], pre, q, v, post, comment);
    AssignmentRead(indent + line, key, gap, Quoted(pre, q, v, post', comment'));
    QuotingRoundTrip(pre, q, v, post', comment');
  }

  lemma TrimmedLine(indent: string, start: string, pre: string, q: char, v: string, post: string, comment: string)
    returns (post': string, comment': string)
    requires start != [] && !IsSpace(start[0]) && Spaces(indent) && Spaces(post) && IsQuote(q) && Comment(comment)
    ensures Spaces(post') && Comment(comment')
    ensures Trim(indent + (start + Quoted(pre, q, v, post, comment))) == start + Quoted(pre, q, v, post', comment')
  {
    hide TrimRight, Spaces, Comment;
    var head := start + (pre + ([q] + (v + [q])));
    var line := start + Quoted(pre, q, v, post, comment);
    assert line == head + (post + comment);
    TrimLeftSpaces(indent, line);
    assert line[0] == start[0];
    post', comment' := TrimmedTail(head, post, comment);
    assert start + Quoted(pre, q, v, post', comment') == head + (post' + comment');
  }

  lemma AssignmentRead(line: string, key: string, gap: string, value: string)
    requires Key(key) && Spaces(gap) && !("declare " <= key + gap)
    requires Trim(line) == key + gap + ['='] + value
    ensures ParseLine(line) == Some((key, ConfigValue(value)))
  {
    hide Trim, ConfigValue, EqualsAt, Spaces;
    var text := Trim(line);
    assert text == (key + gap) + (['='] + value) && text[0] == key[0];
    NotDeclare(key + gap, value);
    NoEqualsInGap(key, gap);
    EqualsAtFirst(key + gap, value);
    assert text[..|key + gap|] == key + gap && text[|key + gap| + 1..] == value;
    assert key + gap == [] + key + gap;
    TrimPadded([], key, gap);
  }

  lemma NoEqualsInGap(key: string, gap: string)
    requires '=' !in key && Spaces(gap)
    ensures '=' !in key + gap
  {
  }

  /** No line with the key in front looks like a `declare` line. */
  lemma NotDeclare(key: string, rest: string)
    requires !("declare " <= key)
    ensures !("declare " <= key + (['='] + rest))
  {
    var d, s := "declare ", key + (['='] + rest);
    if |key| >= |d| {
      assert s[..|d|] == key[..|d|];
    } else {
      assert s[|key|] == '=' && d[|key|] != '=';
    }
  }

  /** Comments, declarations and lines without an equals sign are skipped, however they
      are indented. */
  lemma SkippedLines(indent: string, text: string)
    requires Spaces(indent)
    ensures ParseLine(indent + (['#'] + text)) == None
    ensures ParseLine(indent + ("declare " + text)) == None
    ensures '=' !in text ==> ParseLine(text) == None
  {
    hide Spaces, EqualsAt;
    TrimLeftSpaces(indent, ['#'] + text);
    TrimRightKeepsHead(['#'] + text);
    var line := "declare " + text;
    assert line[0] == 'd';
    TrimLeftSpaces(indent, line);
    TrimRightPrefix(line);
    TrimRightPrefix(TrimLeft(text));
    TrimLeftPart(text);
    if |TrimRight(line)| >= 8 {
      assert TrimRight(line)[..8] == "declare ";
    } else {
      assert '=' !in TrimRight(line);
    }
  }

  lemma {:induction false} TrimRightPrefix(s: string)
    ensures TrimRight(s) <= s
  {
    if s != [] && IsSpace(s[|s| - 1]) {
      TrimRightPrefix(s[..|s| - 1]);
    }
  }

  lemma {:induction false} TrimLeftPart(s: string)
    ensures forall c :: c in TrimLeft(s) ==> c in s
  {
    if s != [] && IsSpace(s[0]) {
      TrimLeftPart(s[1..]);
    }
  }

  // ----- the parser in place -----

  /** `buf[from..end]` is a C string: `end` is its terminator. */
  ghost predicate CString(buf: array<char>, from: nat, end: nat)
    reads buf
  {
    && from <= end < buf.Length && buf[end] == '\0'
    && forall k :: from <= k < end ==> buf[k] != '\0'
  }

  method StrLen(buf: array<char>, from: nat, ghost end: nat) returns (n: nat)
    requires CString(buf, from, end)
    ensures n == end - from
  {
    n := 0;
    while buf[from + n] != '\0'
      invariant n <= end - from
      decreases end - from - n
    {
      n := n + 1;
    }
  }

  /** Skips leading spaces and cuts trailing ones by moving the terminator. */
  method TrimInPlace(buf: array<char>, from: nat, ghost end: nat) returns (text: nat, ghost end': nat)
    requires CString(buf, from, end)
    modifies buf
    ensures CString(buf, text, end') && from <= text && end' <= end
    ensures buf[text..end'] == Trim(old(buf[from..end]))
    ensures forall k :: 0 <= k < buf.Length && k != end' ==> buf[k] == old(buf[k])
  {
    text := from;
    while IsSpace(buf[text])
      invariant from <= text <= end
      invariant TrimLeft(buf[text..end]) == TrimLeft(old(buf[from..end]))
      decreases end - text
    {
      assert text < end;
      assert buf[text..end][1..] == buf[text + 1..end];
      text := text + 1;
    }
    assert TrimLeft(buf[text..end]) == buf[text..end];
    var n := StrLen(buf, text, end);
    var last := text + n;
    while last > text && IsSpace(buf[last - 1])
      invariant text <= last <= end
      invariant TrimRight(buf[text..last]) == TrimRight(buf[text..end])
    {
      assert buf[text..last][..last - 1 - text] == buf[text..last - 1];
      last := last - 1;
    }
    assert TrimRight(buf[text..last]) == buf[text..last];
    buf[last] := '\0';
    end' := last;
  }

  /** The scan has passed `i` characters of the text and found no comment. */
  ghost predicate Scanned(text: string, i: nat, quote: Option<char>) {
    i <= |text| && Uncommented(text, None) == text[..i] + Uncommented(text[i..], quote)
  }

  lemma ScanEnds(text: string, i: nat, quote: Option<char>)
    requires Scanned(text, i, quote)
    ensures i == |text| ==> Uncommented(text, None) == text
    ensures i < |text| && StartsComment(quote, text[i]) ==> Uncommented(text, None) == text[..i]
  {
    hide Uncommented;
    if i == |text| {
      UncommentedEmpty(quote);
      NothingLeft(text);
    } else if StartsComment(quote, text[i]) {
      OnlyComment(text, i, quote);
    }
  }

  lemma NothingLeft(text: string)
    ensures text[|text|..] == [] && text[..|text|] + [] == text
  {
  }

  lemma OnlyComment(text: string, i: nat, quote: Option<char>)
    requires i < |text| && StartsComment(quote, text[i])
    ensures Uncommented(text[i..], quote) == [] && text[..i] + [] == text[..i]
  {
  }

  lemma ScanStep(text: string, i: nat, quote: Option<char>)
    requires Scanned(text, i, quote) && i < |text| && !StartsComment(quote, text[i])
    ensures Scanned(text, i + 1, QuoteAfter(quote, text[i]))
  {
    hide Uncommented;
    var c, rest := text[i], text[i + 1..];
    assert text[i..] == [c] + rest;
    UncommentedCons(c, rest, quote);
    Reassociate(text[..i], c, Uncommented(rest, QuoteAfter(quote, c)));
    assert text[..i + 1] == text[..i] + [c];
  }

  lemma ScanOne(text: string, i: nat, quote: Option<char>)
    requires Scanned(text, i, quote)
    ensures i == |text| ==> Uncommented(text, None) == text
    ensures i < |text| && StartsComment(quote, text[i]) ==> Uncommented(text, None) == text[..i]
    ensures i < |text| && !StartsComment(quote, text[i]) ==> Scanned(text, i + 1, QuoteAfter(quote, text[i]))
  {
    hide Uncommented, Scanned;
    ScanEnds(text, i, quote);
    if i < |text| && !StartsComment(quote, text[i]) {
      ScanStep(text, i, quote);
    }
  }

  lemma Reassociate(s: string, c: char, t: string)
    ensures s + ([c] + t) == (s + [c]) + t
  {
  }

  lemma UncommentedEmpty(quote: Option<char>)
    ensures Uncommented([], quote) == []
  {
  }

  lemma UncommentedCons(c: char, rest: string, quote: Option<char>)
    ensures Uncommented([c] + rest, quote) ==
            if StartsComment(quote, c) then [] else [c] + Uncommented(rest, QuoteAfter(quote, c))
  {
    assert ([c] + rest)[1..] == rest;
  }

  /** Ends the string at the first `#` outside quotes. */
  method CutComment(buf: array<char>, from: nat, ghost end: nat) returns (ghost cut: nat)
    requires CString(buf, from, end)
    modifies buf
    ensures CString(buf, from, cut) && cut <= end
    ensures buf[from..cut] == Uncommented(old(buf[from..end]), None)
  {
    var quote: Option<char> := None;
    var cursor := from;
    ghost var text := buf[from..end];
    assert Scanned(text, 0, None);
    hide Uncommented, Scanned;
    cut := end;
    while buf[cursor] != '\0'
      invariant from <= cursor <= end
      invariant buf[..] == old(buf[..])
      invariant Scanned(text, cursor - from, quote)
      decreases end - cursor
    {
      var c := buf[cursor];
      ghost var i, before := cursor - from, quote;
      assert c == text[i];
      ScanOne(text, i, quote);
      if IsQuote(c) && (quote.None? || quote == Some(c)) {
        quote := if quote.Some? then None else Some(c);
      } else if c == '#' && quote.None? {
        buf[cursor] := '\0';
        cut := cursor;
        return;
      }
      assert !StartsComment(before, c) && quote == QuoteAfter(before, c);
      assert Scanned(text, i + 1, quote);
      cursor := cursor + 1;
    }
    ScanOne(text, cursor - from, quote);
  }

  /** `config_value`: cut the comment, trim, and strip one pair of quotes. */
  method ConfigValueInPlace(buf: array<char>, from: nat, ghost end: nat) returns (text: nat, ghost end': nat)
    requires CString(buf, from, end)
    modifies buf
    ensures CString(buf, text, end') && from <= text && end' <= end
    ensures buf[text..end'] == ConfigValue(old(buf[from..end]))
  {
    hide Trim, Uncommented;
    ghost var cut := CutComment(buf, from, end);
    text, end' := TrimInPlace(buf, from, cut);
    var length := StrLen(buf, text, end');
    if length >= 2 && ((buf[text] == '"' && buf[text + length - 1] == '"') ||
                       (buf[text] == '\'' && buf[text + length - 1] == '\'')) {
      ghost var s := buf[text..end'];
      buf[text + length - 1] := '\0';
      text := text + 1;
      end' := end' - 1;
      assert buf[text..end'] == s[1..|s| - 1];
    }
  }
}
