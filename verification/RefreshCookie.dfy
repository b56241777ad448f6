/** The hand-written reader of the refresh cookie, and the Cookie grammar of section 4.2.1 of RFC 6265
    whose headers it inverts. */
module RefreshCookie {
  import opened Wrappers
  import opened Text

  const REFRESH_COOKIE_NAME := "refreshToken"

  /** White space as JavaScript trims it. */
  predicate IsSpace(c: char) {
    || '\U{0009}' <= c <= '\U{000D}' || c == ' ' || c == '\U{00A0}' || c == '\U{1680}'
    || '\U{2000}' <= c <= '\U{200A}' || c == '\U{2028}' || c == '\U{2029}' || c == '\U{202F}' || c == '\U{205F}'
    || c == '\U{3000}' || c == '\U{FEFF}'
  }

  function Trim(s: string): string {
    if s != "" && IsSpace(s[0]) then Trim(s[1..])
    else if s != "" && IsSpace(s[|s| - 1]) then Trim(s[..|s| - 1])
    else s
  }

  function IndexOf(s: string, c: char): (o: Option<nat>)
    ensures o.Some? ==> o.value < |s| && s[o.value] == c && Free(s[..o.value], c)
    ensures o.None? ==> Free(s, c)
  {
    if s == "" then None
    else if s[0] == c then Some(0)
    else
      var o := IndexOf(s[1..], c);
      if o.None? then None else Some(o.value + 1)
  }

  function Split(s: string, c: char): (parts: seq<string>)
    ensures parts != []
    decreases |s|
  {
    var o := IndexOf(s, c);
    if o.None? then [s] else [s[..o.value]] + Split(s[o.value + 1..], c)
  }

  /** The value that one part of the header gives to the cookie, if it names it. */
  function ValueIn(part: string, name: string): Option<string> {
    var o := IndexOf(part, '=');
    if o.Some? && Trim(part[..o.value]) == name then Some(Trim(part[o.value + 1..])) else None
  }

  /** The answer is the value in the first part that names the cookie. */
  ghost predicate IsFirstValue(parts: seq<string>, name: string, answer: Option<string>) {
    if answer.None? then forall i :: 0 <= i < |parts| ==> ValueIn(parts[i], name).None?
    else exists i :: 0 <= i < |parts| && ValueIn(parts[i], name) == answer
                     && forall j :: 0 <= j < i ==> ValueIn(parts[j], name).None?
  }

  method GetRefreshCookie(header: Option<string>) returns (answer: Option<string>)
    ensures header.None? || header.value == "" ==> answer == None
    ensures header.Some? && header.value != "" ==> IsFirstValue(Split(header.value, ';'), "refreshToken", answer)
  {
    if header.None? || header.value == "" {
      return None;
    }
    var parts := Split(header.value, ';');
    for i := 0 to |parts|
      invariant forall j :: 0 <= j < i ==> ValueIn(parts[j], REFRESH_COOKIE_NAME).None?
    {
      var idx := IndexOf(parts[i], '=');
      if idx.None? {
        continue;
      }
      var key := Trim(parts[i][..idx.value]);
      var value := Trim(parts[i][idx.value + 1..]);
      if key == REFRESH_COOKIE_NAME {
        return Some(value);
      }
    }
    return None;
  }

  // White space ------------------------------------------------------------------------------------

  /** The white space and the line terminators of ECMAScript, one by one. */
  lemma SpacesOfEcmaScript(c: char)
    ensures IsSpace(c) <==>
              || c in "\t\U{000B}\U{000C} \U{00A0}\U{FEFF}"
              || c in "\n\r\U{2028}\U{2029}"
              || c in "\U{1680}\U{2000}\U{2001}\U{2002}\U{2003}\U{2004}\U{2005}\U{2006}\U{2007}\U{2008}\U{2009}"
              || c in "\U{200A}\U{202F}\U{205F}\U{3000}"
  {
  }

  predicate AllSpaces(s: string) {
    forall i :: 0 <= i < |s| ==> IsSpace(s[i])
  }

  predicate Trimmed(s: string) {
    s == "" || (!IsSpace(s[0]) && !IsSpace(s[|s| - 1]))
  }

  /** Trimming takes white space from both ends, and nothing but white space. */
  lemma SpacesGrow(a: string, c: char)
    requires AllSpaces(a) && IsSpace(c)
    ensures AllSpaces([c] + a) && AllSpaces(a + [c])
  {
  }

  lemma Regroup(c: string, a: string, x: string, b: string, d: string)
    ensures c + (a + x + b) == (c + a) + x + b && (a + x + b) + d == a + x + (b + d)
  {
  }

  lemma {:induction false} TrimCuts(s: string) returns (a: string, b: string)
    ensures s == a + Trim(s) + b && AllSpaces(a) && AllSpaces(b) && Trimmed(Trim(s))
    decreases |s|
  {
    a, b := "", "";
    if s != "" && IsSpace(s[0]) {
      a, b := TrimCuts(s[1..]);
      assert s == [s[0]] + s[1..];
      SpacesGrow(a, s[0]);
      Regroup([s[0]], a, Trim(s[1..]), b, "");
      a := [s[0]] + a;
    } else if s != "" && IsSpace(s[|s| - 1]) {
      var n := |s| - 1;
      a, b := TrimCuts(s[..n]);
      assert s == s[..n] + [s[n]];
      SpacesGrow(b, s[n]);
      Regroup("", a, Trim(s[..n]), b, [s[n]]);
      b := b + [s[n]];
    }
  }

  /** And it takes all of it. */
  lemma {:induction false} TrimStrips(a: string, x: string, b: string)
    requires AllSpaces(a) && AllSpaces(b) && Trimmed(x)
    ensures Trim(a + x + b) == x
    decreases |a| + |b|
  {
    var s := a + x + b;
    if a != "" {
      TrimStrips(a[1..], x, b);
      assert s[1..] == a[1..] + x + b;
    } else if b != "" {
      var n := |b| - 1;
      if x == "" {
        TrimStrips("", x, b[1..]);
        assert s[1..] == "" + x + b[1..];
      } else {
        TrimStrips("", x, b[..n]);
        assert s[..|s| - 1] == "" + x + b[..n];
      }
    } else {
      assert s == x;
    }
  }

  // The grammar ------------------------------------------------------------------------------------

  datatype Pair = Pair(name: string, value: string)

  predicate IsTokenChar(c: char) {
    || 'a' <= c <= 'z' || 'A' <= c <= 'Z' || '0' <= c <= '9'
    || c == '!' || '#' <= c <= '\'' || c == '*' || c == '+' || c == '-' || c == '.' || '^' <= c <= '`'
    || c == '|' || c == '~'
  }

  predicate IsCookieOctet(c: char) {
    c == '!' || '#' <= c <= '+' || '-' <= c <= ':' || '<' <= c <= '[' || ']' <= c <= '~'
  }

  /** Both are the visible ASCII characters but some: the separators, and what ends or quotes a value. */
  lemma VisibleCharacters(c: char)
    ensures IsTokenChar(c) <==> '!' <= c <= '~' && c !in "()<>@,;:\\\"/[]?={}"
    ensures IsCookieOctet(c) <==> '!' <= c <= '~' && c !in "\",;\\"
  {
  }

  predicate IsCookieName(s: string) {
    s != "" && forall i :: 0 <= i < |s| ==> IsTokenChar(s[i])
  }

  predicate IsCookieValue(s: string) {
    || (forall i :: 0 <= i < |s| ==> IsCookieOctet(s[i]))
    || (|s| >= 2 && s[0] == '"' && s[|s| - 1] == '"' && forall i :: 0 < i < |s| - 1 ==> IsCookieOctet(s[i]))
  }

  predicate IsCookiePair(p: Pair) {
    IsCookieName(p.name) && IsCookieValue(p.value)
  }

  function PrintPair(p: Pair): string {
    p.name + ['='] + p.value
  }

  function Print(pairs: seq<Pair>): string {
    if pairs == [] then ""
    else if |pairs| == 1 then PrintPair(pairs[0])
    else PrintPair(pairs[0]) + [';'] + ([' '] + Print(pairs[1..]))
  }

  lemma {:induction false} IndexOfFirst(a: string, x: string, c: char)
    requires Free(a, c)
    ensures IndexOf(a + [c] + x, c) == Some(|a|)
    decreases |a|
  {
    var s := a + [c] + x;
    if a != "" {
      assert s[1..] == a[1..] + [c] + x;
      IndexOfFirst(a[1..], x, c);
    }
  }

  lemma SplitAtFirst(a: string, x: string, c: char)
    requires Free(a, c)
    ensures Split(a + [c] + x, c) == [a] + Split(x, c)
  {
    IndexOfFirst(a, x, c);
    var s := a + [c] + x;
    assert s[..|a|] == a && s[|a| + 1..] == x;
  }

  lemma TrimIsIdle(s: string)
    requires s == "" || (!IsSpace(s[0]) && !IsSpace(s[|s| - 1]))
    ensures Trim(s) == s && Trim([' '] + s) == s
  {
  }

  lemma PairCharacters(p: Pair)
    requires IsCookiePair(p)
    ensures Free(p.name, '=') && Free(p.name, ';') && Free(p.value, ';')
    ensures !IsSpace(p.name[0]) && !IsSpace(p.name[|p.name| - 1])
    ensures p.value == "" || (!IsSpace(p.value[0]) && !IsSpace(p.value[|p.value| - 1]))
  {
  }

  lemma ValueInPart(key: string, value: string, name: string)
    requires Free(key, '=')
    ensures ValueIn(key + ['='] + value, name) == if Trim(key) == name then Some(Trim(value)) else None
  {
    IndexOfFirst(key, value, '=');
    var part := key + ['='] + value;
    assert part[..|key|] == key && part[|key| + 1..] == value;
  }

  /** A pair, alone or after the space that follows a semicolon, gives its value to its name and to no other. */
  lemma PairGivesValue(p: Pair, name: string, space: string)
    requires IsCookiePair(p) && (space == "" || space == " ")
    ensures ValueIn(space + PrintPair(p), name) == if p.name == name then Some(p.value) else None
  {
    PairCharacters(p);
    var key := space + p.name;
    assert space + PrintPair(p) == key + ['='] + p.value;
    ValueInPart(key, p.value, name);
    TrimIsIdle(p.name);
    TrimIsIdle(p.value);
    assert space == "" ==> key == p.name;
  }

  /** However a name and a value are padded, the part gives the value. */
  lemma PaddedPairGivesValue(p: Pair, a: string, b: string, c: string, d: string)
    requires Free(p.name, '=') && Trimmed(p.name) && Trimmed(p.value)
    requires AllSpaces(a) && AllSpaces(b) && AllSpaces(c) && AllSpaces(d)
    ensures ValueIn((a + p.name + b) + ['='] + (c + p.value + d), p.name) == Some(p.value)
  {
    ValueInPart(a + p.name + b, c + p.value + d, p.name);
    TrimStrips(a, p.name, b);
    TrimStrips(c, p.value, d);
  }

  lemma PairHasNoSemicolon(p: Pair, space: string)
    requires IsCookiePair(p) && (space == "" || space == " ")
    ensures Free(space + PrintPair(p), ';')
  {
  }

  predicate ArePrinted(parts: seq<string>, pairs: seq<Pair>, space: string) {
    && |parts| == |pairs|
    && forall i :: 0 <= i < |pairs| ==> parts[i] == (if i == 0 then space else " ") + PrintPair(pairs[i])
  }

  lemma PrintedExtends(head: string, rest: seq<string>, pairs: seq<Pair>, space: string)
    requires pairs != [] && head == space + PrintPair(pairs[0]) && ArePrinted(rest, pairs[1..], " ")
    ensures ArePrinted([head] + rest, pairs, space)
  {
    forall i | 0 < i < |pairs| ensures ([head] + rest)[i] == " " + PrintPair(pairs[i]) {
      assert ([head] + rest)[i] == rest[i - 1] && pairs[1..][i - 1] == pairs[i];
    }
  }

  lemma {:induction false} SplitInvertsPrint(pairs: seq<Pair>, space: string)
    requires pairs != [] && (forall i :: 0 <= i < |pairs| ==> IsCookiePair(pairs[i])) && (space == "" || space == " ")
    ensures ArePrinted(Split(space + Print(pairs), ';'), pairs, space)
    decreases |pairs|
  {
    PairHasNoSemicolon(pairs[0], space);
    var head := space + PrintPair(pairs[0]);
    if |pairs| > 1 {
      var rest := [' '] + Print(pairs[1..]);
      assert space + Print(pairs) == head + [';'] + rest;
      SplitAtFirst(head, rest, ';');
      SplitInvertsPrint(pairs[1..], " ");
      PrintedExtends(head, Split(rest, ';'), pairs, space);
    } else {
      assert IndexOf(head, ';').None?;
    }
  }

  ghost predicate IsFirstNamed(pairs: seq<Pair>, name: string, answer: Option<string>) {
    if answer.None? then forall i :: 0 <= i < |pairs| ==> pairs[i].name != name
    else exists i :: 0 <= i < |pairs| && pairs[i] == Pair(name, answer.value)
                     && forall j :: 0 <= j < i ==> pairs[j].name != name
  }

  lemma FirstValueIsFirstNamed(parts: seq<string>, pairs: seq<Pair>, name: string, answer: Option<string>)
    requires |parts| == |pairs|
    requires forall i :: 0 <= i < |pairs| ==>
               ValueIn(parts[i], name) == if pairs[i].name == name then Some(pairs[i].value) else None
    requires IsFirstValue(parts, name, answer)
    ensures IsFirstNamed(pairs, name, answer)
  {
  }

  /** Reading inverts printing: on every header of the grammar the reader answers the value of the first
      pair of the name, "=" signs and all, and nothing exactly when there is no such pair. */
  lemma ReadInvertsPrint(pairs: seq<Pair>, name: string, answer: Option<string>)
    requires pairs != [] && forall i :: 0 <= i < |pairs| ==> IsCookiePair(pairs[i])
    requires IsFirstValue(Split(Print(pairs), ';'), name, answer)
    ensures IsFirstNamed(pairs, name, answer)
  {
    SplitInvertsPrint(pairs, "");
    assert "" + Print(pairs) == Print(pairs);
    var parts := Split(Print(pairs), ';');
    forall i | 0 <= i < |pairs|
      ensures ValueIn(parts[i], name) == if pairs[i].name == name then Some(pairs[i].value) else None
    {
      PairGivesValue(pairs[i], name, if i == 0 then "" else " ");
    }
    FirstValueIsFirstNamed(parts, pairs, name, answer);
  }

  lemma FirstNamedIs(pairs: seq<Pair>, k: nat, name: string, answer: Option<string>)
    requires IsFirstNamed(pairs, name, answer) && k < |pairs| && pairs[k].name == name
    requires forall i :: 0 <= i < k ==> pairs[i].name != name
    ensures answer == Some(pairs[k].value)
  {
    if answer.Some? {
      var i :| 0 <= i < |pairs| && pairs[i] == Pair(name, answer.value)
               && forall j :: 0 <= j < i ==> pairs[j].name != name;
      assert i == k;
    }
  }

  lemma TokenIsCookiePair(token: string)
    requires forall i :: 0 <= i < |token| ==>
               || 'A' <= token[i] <= 'Z' || 'a' <= token[i] <= 'z' || '0' <= token[i] <= '9'
               || token[i] == '-' || token[i] == '_'
    ensures IsCookiePair(Pair("refreshToken", token))
  {
    assert IsCookieValue(token);
    assert IsCookieName("refreshToken");
  }

  lemma PairComesBack(pairs: seq<Pair>, k: nat, name: string, answer: Option<string>)
    requires k < |pairs| && pairs[k].name == name && forall i :: 0 <= i < k ==> pairs[i].name != name
    requires forall i :: 0 <= i < |pairs| ==> IsCookiePair(pairs[i])
    requires IsFirstValue(Split(Print(pairs), ';'), name, answer)
    ensures answer == Some(pairs[k].value)
  {
    ReadInvertsPrint(pairs, name, answer);
    FirstNamedIs(pairs, k, name, answer);
  }

  /** A refresh token, in the characters of base64url, comes back from any header that carries its cookie among
      others. */
  lemma TokenComesBack(pairs: seq<Pair>, k: nat, token: string, answer: Option<string>)
    requires forall i :: 0 <= i < |token| ==>
               || 'A' <= token[i] <= 'Z' || 'a' <= token[i] <= 'z' || '0' <= token[i] <= '9'
               || token[i] == '-' || token[i] == '_'
    requires k < |pairs| && pairs[k] == Pair("refreshToken", token)
    requires forall i :: 0 <= i < k ==> pairs[i].name != "refreshToken"
    requires forall i :: 0 <= i < |pairs| && i != k ==> IsCookiePair(pairs[i])
    requires IsFirstValue(Split(Print(pairs), ';'), "refreshToken", answer)
    ensures answer == Some(token)
  {
    TokenIsCookiePair(token);
    PairComesBack(pairs, k, "refreshToken", answer);
  }
}
