/** Numbers and names as text: decimal printing and parsing as the C++ library does them, and splitting names at slashes. */
module MessageText {
  import opened Common

  // ---------------------------------------------------------------------------- numbers

  predicate IsDigit(c: char) {
    '0' <= c <= '9'
  }

  function Digit(d: nat): char
    requires d < 10
  {
    '0' + d as char
  }

  /** What `<<` prints for an unsigned value. */
  function Print(n: nat): (s: string)
    ensures s != "" && forall i :: 0 <= i < |s| ==> IsDigit(s[i])
  {
    if n < 10 then [Digit(n)] else Print(n / 10) + [Digit(n % 10)]
  }

  function Value(s: string): nat
    requires forall i :: 0 <= i < |s| ==> IsDigit(s[i])
  {
    if s == "" then 0
    else
      assert IsDigit(s[|s| - 1]);
      10 * Value(s[..|s| - 1]) + (s[|s| - 1] as int - '0' as int)
  }

  lemma {:induction false} ValuePrint(n: nat)
    ensures Value(Print(n)) == n
  {
    if n >= 10 {
      ValuePrint(n / 10);
      var s := Print(n);
      assert s[..|s| - 1] == Print(n / 10);
    } else {
      assert Print(n)[..0] == "";
    }
  }

  /** The digits a string starts with. */
  function Digits(s: string): (d: string)
    ensures |d| <= |s| && d == s[..|d|] && (forall i :: 0 <= i < |d| ==> IsDigit(d[i])) && (|d| < |s| ==> !IsDigit(s[|d|]))
  {
    if s != "" && IsDigit(s[0]) then [s[0]] + Digits(s[1..]) else ""
  }

  function SkipSpace(s: string): string {
    if s != "" && (s[0] == ' ' || '\t' <= s[0] <= '\r') then SkipSpace(s[1..]) else s
  }

  /** The magnitude and sign that a conversion reads: spaces, perhaps a sign, digits; anything after them is ignored. */
  function ReadNumber(s: string): Option<(nat, bool)> {
    var t := SkipSpace(s);
    var negative := t != "" && t[0] == '-';
    var d := Digits(if t != "" && (t[0] == '-' || t[0] == '+') then t[1..] else t);
    if d == "" then None else Some((Value(d), negative))
  }

  /** `stoll`: none if it throws. */
  function Stoll(s: string): Option<int> {
    match ReadNumber(s)
    case None => None
    case Some((v, negative)) =>
      var x: int := if negative then 0 - v else v;
      if -0x8000_0000_0000_0000 <= x < 0x8000_0000_0000_0000 then Some(x) else None
  }

  /** `stoull`, which negates modulo 2^64. */
  function Stoull(s: string): Option<int> {
    match ReadNumber(s)
    case None => None
    case Some((v, negative)) =>
      if v < 0x1_0000_0000_0000_0000 then Some(if negative then (0x1_0000_0000_0000_0000 - v) % 0x1_0000_0000_0000_0000 else v) else None
  }

  lemma {:induction false} DigitsPrefix(d: string, rest: string)
    requires forall i :: 0 <= i < |d| ==> IsDigit(d[i])
    requires rest != "" ==> !IsDigit(rest[0])
    ensures Digits(d + rest) == d
  {
    if d == "" {
      assert d + rest == rest;
    } else {
      assert (d + rest)[1..] == d[1..] + rest;
      DigitsPrefix(d[1..], rest);
    }
  }

  /** A printed number is read back, whatever follows it that is not a digit. */
  lemma ReadPrinted(n: nat, rest: string)
    requires rest != "" ==> !IsDigit(rest[0])
    ensures ReadNumber(Print(n) + rest) == Some((n, false))
  {
    var d := Print(n);
    var s := d + rest;
    assert s[0] == d[0];
    assert SkipSpace(s) == s;
    DigitsPrefix(d, rest);
    ValuePrint(n);
  }

  lemma StollPrinted(n: nat, rest: string)
    requires rest != "" ==> !IsDigit(rest[0])
    ensures Stoll(Print(n) + rest) == if n < 0x8000_0000_0000_0000 then Some(n) else None
  {
    ReadPrinted(n, rest);
  }

  lemma StollAlone(n: nat)
    ensures Stoll(Print(n)) == if n < 0x8000_0000_0000_0000 then Some(n) else None
    ensures n < 0x1_0000_0000_0000_0000 ==> Stoull(Print(n)) == Some(n)
  {
    assert Print(n) + "" == Print(n);
    ReadPrinted(n, "");
  }

  // ------------------------------------------------------------------------------ names

  /** A component as it may stand in a name: not empty, and without a slash. */
  ghost predicate Component(c: string) {
    c != "" && NoSlash(c)
  }

  ghost predicate NoSlash(c: string) {
    forall i :: 0 <= i < |c| ==> c[i] != '/'
  }

  function ToUri(name: seq<string>): string {
    if name == [] then "" else ToUri(name[..|name| - 1]) + "/" + name[|name| - 1]
  }

  function UpToSlash(s: string): (k: nat)
    ensures k <= |s| && (forall i :: 0 <= i < k ==> s[i] != '/') && (k < |s| ==> s[k] == '/')
  {
    if s == "" || s[0] == '/' then 0 else 1 + UpToSlash(s[1..])
  }

  /** The components of a name given as text that starts with a slash. */
  function ParseName(s: string): seq<string>
    decreases |s|
  {
    if s == "" || s[0] != '/' then []
    else
      var k := UpToSlash(s[1..]);
      [s[1..k + 1]] + ParseName(s[k + 1..])
  }

  lemma {:induction false} ParseAppended(s: string, name: seq<string>, c: string)
    requires Component(c) && s == ToUri(name) && forall i :: 0 <= i < |name| ==> Component(name[i])
    ensures ParseName(s + "/" + c) == name + [c]
    decreases |name|
  {
    if name == [] {
      var t := s + "/" + c;
      assert t[1..] == c;
      UpToRest(c, "");
      assert c + "" == c;
      assert t[1..|c| + 1] == c && t[|c| + 1..] == "";
    } else {
      FirstOff(name);
      var rest := ToUri(name[1..]);
      var t := s + "/" + c;
      assert t == "/" + name[0] + (rest + "/" + c);
      FirstComponent(name[0], rest + "/" + c) by {
        StartsWithSlash(name[1..]);
      }
      ParseAppended(rest, name[1..], c);
      assert name == [name[0]] + name[1..];
    }
  }

  lemma {:induction false} UpToRest(c: string, rest: string)
    requires NoSlash(c) && (rest == "" || rest[0] == '/')
    ensures UpToSlash(c + rest) == |c|
  {
    if c == "" {
      assert c + rest == rest;
    } else {
      assert (c + rest)[1..] == c[1..] + rest;
      UpToRest(c[1..], rest);
    }
  }

  lemma StartsWithSlash(name: seq<string>)
    ensures ToUri(name) != "" ==> ToUri(name)[0] == '/'
  {
  }

  lemma FirstComponent(c: string, rest: string)
    requires Component(c) && rest != "" && rest[0] == '/'
    ensures ParseName("/" + c + rest) == [c] + ParseName(rest)
  {
    var s := "/" + c + rest;
    var k := UpToSlash(s[1..]);
    assert s[1..] == c + rest;
    UpToRest(c, rest);
    assert s[1..k + 1] == c && s[k + 1..] == rest;
  }

  lemma {:induction false} FirstOff(name: seq<string>)
    requires name != []
    ensures ToUri(name) == "/" + name[0] + ToUri(name[1..])
  {
    var init := name[..|name| - 1];
    if |name| == 1 {
      assert name[1..] == [] && ToUri([]) == "";
      assert init == [];
    } else {
      FirstOff(init);
      assert name[1..][..|name| - 2] == init[1..];
    }
  }

  /** Splitting a name's text gives the name back. */
  lemma ParseToUri(name: seq<string>)
    requires name != [] && forall i :: 0 <= i < |name| ==> Component(name[i])
    ensures ParseName(ToUri(name)) == name
  {
    hide ParseName, Component;
    var init, last := name[..|name| - 1], name[|name| - 1];
    assert name == init + [last];
    ParseAppended(ToUri(init), init, last);
  }
}
