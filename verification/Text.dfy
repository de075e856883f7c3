/** Splitting, joining, trimming and measuring text. */
module Text {

  function Split(s: string, separator: char): (parts: seq<string>)
    ensures |parts| > 0
  {
    if s == [] then [""]
    else
      var rest := Split(s[1..], separator);
      if s[0] == separator then [""] + rest else [[s[0]] + rest[0]] + rest[1..]
  }

  function Join(parts: seq<string>, separator: string): string
    requires |parts| > 0
  {
    if |parts| == 1 then parts[0] else parts[0] + separator + Join(parts[1..], separator)
  }

  // The segments a name is judged by are the stretches between its slashes.
  lemma {:induction false} SplitJoins(s: string, separator: char)
    ensures Join(Split(s, separator), [separator]) == s
    ensures forall part :: part in Split(s, separator) ==> separator !in part
  {
    if s != [] {
      SplitJoins(s[1..], separator);
      var rest := Split(s[1..], separator);
      if s[0] == separator {
        assert ([""] + rest)[1..] == rest;
      } else {
        var first := [s[0]] + rest[0];
        assert ([first] + rest[1..])[1..] == rest[1..];
        assert rest[0] in rest;
      }
      assert s == [s[0]] + s[1..];
    }
  }

  lemma {:induction false} SplitWhole(part: string, separator: char)
    requires separator !in part
    ensures Split(part, separator) == [part]
  {
    if part != [] {
      SplitWhole(part[1..], separator);
      assert part[0] in part && part == [part[0]] + part[1..];
    }
  }

  lemma {:induction false} SplitHead(part: string, separator: char, rest: string)
    requires separator !in part
    ensures Split(part + [separator] + rest, separator) == [part] + Split(rest, separator)
  {
    var s := part + [separator] + rest;
    if part == [] {
      assert s[1..] == rest;
    } else {
      SplitHead(part[1..], separator, rest);
      assert s[1..] == part[1..] + [separator] + rest && s[0] == part[0];
      assert part[0] in part && part == [part[0]] + part[1..];
      assert ([part[1..]] + Split(rest, separator))[1..] == Split(rest, separator);
    }
  }

  // Parts without the separator come back from the text they are joined into.
  lemma {:induction false} JoinSplits(parts: seq<string>, separator: char)
    requires |parts| > 0 && forall part :: part in parts ==> separator !in part
    ensures Split(Join(parts, [separator]), separator) == parts
  {
    if |parts| == 1 {
      SplitWhole(parts[0], separator);
    } else {
      assert parts[0] in parts && forall part :: part in parts[1..] ==> part in parts;
      JoinSplits(parts[1..], separator);
      SplitHead(parts[0], separator, Join(parts[1..], [separator]));
    }
  }

  lemma {:induction false} JoinSnoc(parts: seq<string>, separator: string, last: string)
    requires parts != []
    ensures Join(parts + [last], separator) == Join(parts, separator) + separator + last
  {
    if |parts| == 1 {
      assert (parts + [last])[1..] == [last];
    } else {
      JoinSnoc(parts[1..], separator, last);
      assert (parts + [last])[1..] == parts[1..] + [last];
    }
  }

  // White space and line terminators, as String.prototype.trim and \s know them.
  predicate IsSpace(c: char) {
    var n := c as int;
    || 9 <= n <= 13 || n == 0x20 || n == 0xa0 || n == 0x1680 || 0x2000 <= n <= 0x200a
    || n == 0x2028 || n == 0x2029 || n == 0x202f || n == 0x205f || n == 0x3000 || n == 0xfeff
  }

  predicate Blank(s: string) {
    forall c :: c in s ==> IsSpace(c)
  }

  function TrimStart(s: string): string {
    if s != [] && IsSpace(s[0]) then TrimStart(s[1..]) else s
  }

  function TrimEnd(s: string): string {
    if s != [] && IsSpace(s[|s| - 1]) then TrimEnd(s[..|s| - 1]) else s
  }

  function Trim(s: string): string {
    TrimEnd(TrimStart(s))
  }

  lemma {:induction false} TrimStartBlank(s: string)
    ensures TrimStart(s) == [] <==> Blank(s)
  {
    if s != [] {
      assert s == [s[0]] + s[1..];
      TrimStartBlank(s[1..]);
    }
  }

  lemma {:induction false} TrimEndBlank(s: string)
    ensures TrimEnd(s) == [] <==> Blank(s)
  {
    if s != [] {
      assert s == s[..|s| - 1] + [s[|s| - 1]];
      TrimEndBlank(s[..|s| - 1]);
    }
  }

  // Nothing is left exactly of text that is all white space.
  lemma TrimBlank(s: string)
    ensures Trim(s) == [] <==> Blank(s)
  {
    TrimStartBlank(s);
    TrimEndBlank(TrimStart(s));
    TrimStartHead(s);
  }

  lemma {:induction false} TrimStartHead(s: string)
    ensures TrimStart(s) != [] ==> !IsSpace(TrimStart(s)[0])
  {
    if s != [] && IsSpace(s[0]) {
      TrimStartHead(s[1..]);
    }
  }

  // What is left when white space is taken off both ends, and no more than that.
  lemma TrimIs(s: string) returns (i: nat, j: nat)
    ensures i <= j <= |s| && Trim(s) == s[i..j] && Blank(s[..i]) && Blank(s[j..])
    ensures i < j ==> !IsSpace(s[i]) && !IsSpace(s[j - 1])
  {
    i := TrimStartIs(s);
    var n := TrimEndIs(s[i..]);
    j := i + n;
    assert s[i..][..n] == s[i..j] && s[i..][n..] == s[j..];
  }

  lemma {:induction false} TrimStartIs(s: string) returns (i: nat)
    ensures i <= |s| && TrimStart(s) == s[i..] && Blank(s[..i]) && (i < |s| ==> !IsSpace(s[i]))
  {
    i := 0;
    if s != [] && IsSpace(s[0]) {
      var k := TrimStartIs(s[1..]);
      i := k + 1;
      assert s[..i] == [s[0]] + s[1..][..k];
    }
  }

  lemma {:induction false} TrimEndIs(s: string) returns (n: nat)
    ensures n <= |s| && TrimEnd(s) == s[..n] && Blank(s[n..]) && (n > 0 ==> !IsSpace(s[n - 1]))
  {
    n := |s|;
    if s != [] && IsSpace(s[|s| - 1]) {
      n := TrimEndIs(s[..|s| - 1]);
      assert s[n..] == s[..|s| - 1][n..] + [s[|s| - 1]];
    }
  }

  lemma {:induction false} TrimSkips(s: string, k: nat)
    requires k <= |s| && forall i :: 0 <= i < k ==> IsSpace(s[i])
    ensures Trim(s) == Trim(s[k..])
  {
    if k > 0 {
      TrimSkips(s[1..], k - 1);
      assert s[1..][k - 1..] == s[k..];
    }
  }

  function CharBytes(c: char): nat {
    var n := c as int;
    if n < 0x80 then 1 else if n < 0x800 then 2 else if n < 0x1_0000 then 3 else 4
  }

  function Utf8Length(s: string): nat {
    if s == [] then 0 else Utf8Length(s[..|s| - 1]) + CharBytes(s[|s| - 1])
  }

  lemma {:induction false} Utf8Add(a: string, b: string)
    ensures Utf8Length(a + b) == Utf8Length(a) + Utf8Length(b)
  {
    if b == [] {
      assert a + b == a;
    } else {
      Utf8Add(a, b[..|b| - 1]);
      assert (a + b)[..|a + b| - 1] == a + b[..|b| - 1];
    }
  }
}
