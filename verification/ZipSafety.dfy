/** What it means that an admitted package is safe: where its names lead, what it may contain, how far it expands. */
module ZipSafety {
  import opened Numerals
  import opened Text
  import opened ZipArchive
  import opened ZipAdmission

  // --- Where a name leads ---------------------------------------------------------------------------------

  // The directory reached from the root by following the segments one by one; above the root there is nothing.
  function Resolve(segments: seq<string>): Option<seq<string>> {
    if segments == [] then Some([])
    else
      var last := segments[|segments| - 1];
      match Resolve(segments[..|segments| - 1])
      case None => None
      case Some(path) =>
        if last == "" || last == "." then Some(path)
        else if last == ".." then if path == [] then None else Some(path[..|path| - 1])
        else Some(path + [last])
  }

  predicate Plain(segment: string) {
    segment != "" && segment != "." && segment != ".."
  }

  lemma {:induction false} ResolvesToItself(segments: seq<string>)
    ensures Resolve(segments).Some? ==> |Resolve(segments).value| <= |segments|
    ensures Resolve(segments) == Some(segments) <==> forall segment :: segment in segments ==> Plain(segment)
  {
    if segments != [] {
      var front, last := segments[..|segments| - 1], segments[|segments| - 1];
      assert segments == front + [last];
      ResolvesToItself(front);
      assert last in segments && forall segment :: segment in front ==> segment in segments;
      if Resolve(segments) == Some(segments) {
        var path := Resolve(front).value;
        assert Plain(last) && path == (path + [last])[..|path|] == front;
      }
    }
  }

  function PathOf(name: string): string {
    if name != "" && name[|name| - 1] == '/' then name[..|name| - 1] else name
  }

  // A relative name that leads exactly where it says.
  predicate Confined(name: string) {
    && name != "" && name[0] != '/' && '\\' !in name
    && Resolve(Split(PathOf(name), '/')) == Some(Split(PathOf(name), '/'))
  }

  lemma SafeIsConfined(name: string)
    ensures SafeName(name) <==> Confined(name)
  {
    assert EndsWith(name, "/") <==> name != "" && name[|name| - 1] == '/';
    ResolvesToItself(Split(PathOf(name), '/'));
  }

  lemma {:induction false} ResolvesBelow(base: seq<string>, segments: seq<string>)
    requires Resolve(base) == Some(base) && forall segment :: segment in segments ==> Plain(segment)
    ensures Resolve(base + segments) == Some(base + segments)
  {
    if segments == [] {
      assert base + segments == base;
    } else {
      var front, last := segments[..|segments| - 1], segments[|segments| - 1];
      assert last in segments && forall segment :: segment in front ==> segment in segments;
      ResolvesBelow(base, front);
      assert base + segments == base + front + [last];
      assert (base + segments)[..|base + segments| - 1] == base + front;
    }
  }

  // Extracted into any directory, a safe name stays in it.
  lemma SafeStaysBelow(base: seq<string>, name: string)
    requires Resolve(base) == Some(base) && SafeName(name)
    ensures Resolve(base + Split(PathOf(name), '/')) == Some(base + Split(PathOf(name), '/'))
  {
    SafeIsConfined(name);
    ResolvesToItself(Split(PathOf(name), '/'));
    ResolvesBelow(base, Split(PathOf(name), '/'));
  }

  // --- Macros ------------------------------------------------------------------------------------------------

  // The same text but for the case of its letters; the second one has none in upper case.
  predicate IgnoringCase(s: string, lower: string) {
    |s| == |lower| && forall i :: 0 <= i < |s| ==>
      s[i] == lower[i] || ('A' <= s[i] <= 'Z' && s[i] as int + 32 == lower[i] as int)
  }

  function LastOf(name: string): string {
    Split(name, '/')[|Split(name, '/')| - 1]
  }

  lemma LastOfTail(s: string)
    requires s != []
    ensures |Split(s, '/')| == |Split(s[1..], '/')| + if s[0] == '/' then 1 else 0
    ensures LastOf(s) == if s[0] != '/' && |Split(s[1..], '/')| == 1 then [s[0]] + LastOf(s[1..]) else LastOf(s[1..])
  {
    var rest := Split(s[1..], '/');
    if s[0] == '/' {
      assert Split(s, '/') == [""] + rest;
    } else {
      assert Split(s, '/') == [[s[0]] + rest[0]] + rest[1..];
    }
  }

  lemma {:induction false} LastIsTail(s: string)
    ensures var n := |s| - |LastOf(s)|;
            && 0 <= n && s[n..] == LastOf(s) && '/' !in LastOf(s) && (n > 0 ==> s[n - 1] == '/')
            && (n == 0 <==> |Split(s, '/')| == 1)
  {
    if s != [] {
      LastIsTail(s[1..]);
      LastOfTail(s);
      hide LastOf, Split;
      var n := |s| - |LastOf(s)|;
      if n == 0 {
        assert LastOf(s) == [s[0]] + s[1..] == s == s[n..];
      } else {
        assert s[n..] == s[1..][n - 1..];
        assert n > 1 ==> s[n - 1] == s[1..][n - 2];
      }
    }
  }

  lemma LowerIs(s: string, lower: string)
    requires forall c :: c in lower ==> !('A' <= c <= 'Z')
    ensures Lower(s) == lower <==> IgnoringCase(s, lower)
  {
    if Lower(s) == lower {
      forall i | 0 <= i < |s| ensures s[i] == lower[i] || ('A' <= s[i] <= 'Z' && s[i] as int + 32 == lower[i] as int) {
        assert Lower(s)[i] == lower[i];
      }
    }
    if IgnoringCase(s, lower) {
      forall i | 0 <= i < |s| ensures Lower(s)[i] == lower[i] {
        assert lower[i] in lower;
      }
    }
  }

  lemma SlashOfLower(s: string, i: nat)
    requires i < |s|
    ensures Lower(s)[i] == '/' <==> s[i] == '/'
  {
  }

  // Only the part after the last slash can be free of slashes and stand at the start or after one.
  lemma TailIsUnique(s: string, n: nat, k: nat)
    requires n <= |s| && k <= |s|
    requires (forall j :: n <= j < |s| ==> s[j] != '/') && (n > 0 ==> s[n - 1] == '/')
    requires (forall j :: k <= j < |s| ==> s[j] != '/') && (k > 0 ==> s[k - 1] == '/')
    ensures n == k
  {
  }

  lemma TailMatches(name: string, n: nat, macro: string)
    requires n <= |name| && '/' !in name[n..] && (n > 0 ==> name[n - 1] == '/') && '/' !in macro
    ensures Lower(name[n..]) == macro <==>
            var k := |name| - |macro|; k >= 0 && Lower(name)[k..] == macro && (k > 0 ==> Lower(name)[k - 1] == '/')
  {
    var lower, k := Lower(name), |name| - |macro|;
    assert lower[n..] == Lower(name[n..]);
    forall j | 0 <= j < |name| ensures lower[j] == '/' <==> name[j] == '/' {
      SlashOfLower(name, j);
    }
    hide Lower;
    if k >= 0 && lower[k..] == macro && (k > 0 ==> lower[k - 1] == '/') {
      assert forall j :: k <= j < |name| ==> lower[j] == macro[j - k];
      assert forall j :: n <= j < |name| ==> name[j] == name[n..][j - n];
      TailIsUnique(lower, n, k);
    }
  }

  lemma EndsOnMacro(lower: string, macro: string)
    ensures EndsWith(lower, "/" + macro) || lower == macro <==>
            var k := |lower| - |macro|; k >= 0 && lower[k..] == macro && (k > 0 ==> lower[k - 1] == '/')
  {
    var k := |lower| - |macro|;
    if k > 0 {
      assert lower[k - 1..] == [lower[k - 1]] + lower[k..];
      if EndsWith(lower, "/" + macro) {
        assert lower[k..] == lower[k - 1..][1..] == ("/" + macro)[1..];
      }
    } else if k == 0 {
      assert lower[k..] == lower;
    }
  }

  // A macro is what is called vbaProject.bin in any case, in whatever directory.
  lemma MacroIs(name: string)
    ensures MacroName(name) <==> IgnoringCase(LastOf(name), "vbaproject.bin")
  {
    var macro := "vbaproject.bin";
    LastIsTail(name);
    LowerIs(LastOf(name), macro);
    assert "/vbaproject.bin" == "/" + macro;
    assert forall i :: 0 <= i < |macro| ==> macro[i] != '/' && !('A' <= macro[i] <= 'Z');
    hide LastOf, Lower, EndsWith, IgnoringCase;
    TailMatches(name, |name| - |LastOf(name)|, macro);
    EndsOnMacro(Lower(name), macro);
  }

  // --- What an entry may be ------------------------------------------------------------------------------------

  // Stored or deflated, not encrypted, and at most a hundred times its compressed size.
  predicate Harmless(h: Header) {
    h.flags % 2 == 0 && (h.compression == 0 || h.compression == 8) && h.uncompressed <= 100 * h.compressed
  }

  lemma PermittedIsHarmless(h: Header)
    ensures Permitted(h) <==> Harmless(h)
  {
    assert h.compressed > 0 ==> AtLeastOne(h.compressed) == h.compressed;
  }

  predicate OfficeDocument(extension: string, names: seq<string>) {
    || (extension == ".docx" && "word/document.xml" in names)
    || (extension == ".pptx" && "ppt/presentation.xml" in names)
    || (extension == ".xlsx" && "xl/workbook.xml" in names)
  }

  // Every admitted package: distinct names that stay where they are put, no macros, harmless entries, at most 5000
  // of them, at most 200 MiB together, and the primary document of its kind.
  lemma AdmittedIsSafe(b: seq<Byte>, extension: string, decode: Decoder)
    returns (prefix: seq<Byte>, raws: seq<seq<Byte>>, gap: seq<Byte>, comment: seq<Byte>)
    requires Admit(b, extension, decode).Some?
    ensures Archivable(raws, prefix, comment) && b == Archive(prefix, raws, gap, comment)
    ensures var names := Admit(b, extension, decode).value;
            && OfficeDocument(extension, names) && Distinct(names) && 1 <= |names| == |raws| <= 5000
            && (forall name :: name in names ==> Confined(name) && !IgnoringCase(LastOf(name), "vbaproject.bin"))
            && (forall i :: 0 <= i < |raws| ==>
                decode(NameOf(raws[i])) == Some(names[i]) && Harmless(HeaderOf(raws[i])))
            && TotalUncompressed(raws) <= 209_715_200
  {
    prefix, raws, gap, comment := AdmittedIsArchive(b, extension, decode);
    hide Admit, Confined, IgnoringCase, LastOf, SafeName, MacroName, Permitted, Harmless, IsRecord, Archive, Distinct;
    var names := Admit(b, extension, decode).value;
    forall i | 0 <= i < |raws|
      ensures decode(NameOf(raws[i])) == Some(names[i]) && Harmless(HeaderOf(raws[i]))
      ensures Confined(names[i]) && !IgnoringCase(LastOf(names[i]), "vbaproject.bin")
    {
      assert EntryAdmissible(raws[i], names[i], decode);
      SafeIsConfined(names[i]);
      MacroIs(names[i]);
      PermittedIsHarmless(HeaderOf(raws[i]));
    }
  }
}
