/** Linking: every reference to a known library in a bytecode string is overwritten with the library's address. */
module LinkBytecode {

  /** A reference: its first byte and its number of bytes. A byte is two characters, after the two of the prefix
      "0x". */
  datatype Fixup = Fixup(start: nat, length: nat)
  datatype LibraryReferences = LibraryReferences(libName: string, fixups: seq<Fixup>)
  datatype FileReferences = FileReferences(fileName: string, libraries: seq<LibraryReferences>)

  /** An address to be written at a fixup. */
  datatype Patch = Patch(fixup: Fixup, addr: string)

  // ---------- The algorithm ----------

  function Min(a: nat, b: nat): nat { if a < b then a else b }

  /** A substring of at most the given length; positions past the end give nothing. */
  function Substr(s: string, from: nat, length: nat): string {
    s[Min(from, |s|)..Min(from + length, |s|)]
  }

  function SubstrFrom(s: string, from: nat): string {
    s[Min(from, |s|)..]
  }

  function ApplyPatch(code: string, p: Patch): string {
    Substr(code, 0, 2 + p.fixup.start * 2)
    + SubstrFrom(p.addr, 2)
    + SubstrFrom(code, 2 + (p.fixup.start + p.fixup.length) * 2)
  }

  function ApplyAll(code: string, patches: seq<Patch>): string {
    if patches == [] then code
    else ApplyPatch(ApplyAll(code, patches[..|patches| - 1]), patches[|patches| - 1])
  }

  function FixupPatches(fixups: seq<Fixup>, addr: string): seq<Patch> {
    seq(|fixups|, i requires 0 <= i < |fixups| => Patch(fixups[i], addr))
  }

  function LibraryPatches(lib: LibraryReferences, libraries: map<string, string>): seq<Patch> {
    if lib.libName in libraries then FixupPatches(lib.fixups, libraries[lib.libName]) else []
  }

  function FilePatches(refs: seq<LibraryReferences>, libraries: map<string, string>): seq<Patch> {
    if refs == [] then []
    else FilePatches(refs[..|refs| - 1], libraries) + LibraryPatches(refs[|refs| - 1], libraries)
  }

  /** All patches for the known libraries, in the order of the references. */
  function AllPatches(files: seq<FileReferences>, libraries: map<string, string>): seq<Patch> {
    if files == [] then []
    else AllPatches(files[..|files| - 1], libraries) + FilePatches(files[|files| - 1].libraries, libraries)
  }

  function Link(code: string, files: seq<FileReferences>, libraries: map<string, string>): string {
    ApplyAll(code, AllPatches(files, libraries))
  }

  lemma {:induction false} ApplyAllConcat(code: string, first: seq<Patch>, second: seq<Patch>)
    ensures ApplyAll(code, first + second) == ApplyAll(ApplyAll(code, first), second)
  {
    if second == [] {
      assert first + second == first;
    } else {
      var k := |second| - 1;
      ApplyAllConcat(code, first, second[..k]);
      assert (first + second)[..|first + second| - 1] == first + second[..k];
    }
  }

  // One more file, library or fixup.

  lemma NoPatches(code: string, files: seq<FileReferences>, refs: seq<LibraryReferences>,
                  libraries: map<string, string>)
    ensures AllPatches(files[..0], libraries) == [] && FilePatches(refs[..0], libraries) == []
    ensures ApplyAll(code, []) == code
  {
  }

  lemma NextFile(files: seq<FileReferences>, i: nat, libraries: map<string, string>)
    requires i < |files|
    ensures AllPatches(files[..i + 1], libraries)
         == AllPatches(files[..i], libraries) + FilePatches(files[i].libraries, libraries)
  {
    assert files[..i + 1][..i] == files[..i];
  }

  lemma NextLibrary(refs: seq<LibraryReferences>, j: nat, libraries: map<string, string>)
    requires j < |refs|
    ensures FilePatches(refs[..j + 1], libraries)
         == FilePatches(refs[..j], libraries) + LibraryPatches(refs[j], libraries)
  {
    assert refs[..j + 1][..j] == refs[..j];
  }

  lemma NextFixup(code: string, before: seq<Patch>, fixups: seq<Fixup>, k: nat, addr: string)
    requires k < |fixups|
    ensures ApplyAll(code, before + FixupPatches(fixups[..k + 1], addr))
         == ApplyPatch(ApplyAll(code, before + FixupPatches(fixups[..k], addr)), Patch(fixups[k], addr))
  {
    var inner, last := before + FixupPatches(fixups[..k], addr), Patch(fixups[k], addr);
    assert before + FixupPatches(fixups[..k + 1], addr) == inner + [last];
    assert (inner + [last])[..|inner|] == inner;
  }

  /** The source rewrites one variable in three nested loops and skips unknown libraries. */
  method LinkCode(bytecode: string, files: seq<FileReferences>, libraries: map<string, string>) returns (code: string)
    ensures code == Link(bytecode, files, libraries)
    ensures Linkable(bytecode, files, libraries) ==> IsLinked(bytecode, files, libraries, code)
  {
    hide AllPatches, FilePatches, ApplyAll, Linkable, IsLinked;
    code := bytecode;
    NoPatches(bytecode, files, [], libraries);
    for i := 0 to |files|
      invariant code == ApplyAll(bytecode, AllPatches(files[..i], libraries))
    {
      var refs := files[i].libraries;
      ghost var outer := AllPatches(files[..i], libraries);
      NoPatches(bytecode, files, refs, libraries);
      assert outer + [] == outer;
      for j := 0 to |refs|
        invariant code == ApplyAll(bytecode, outer + FilePatches(refs[..j], libraries))
      {
        ghost var middle := outer + FilePatches(refs[..j], libraries);
        NextLibrary(refs, j, libraries);
        assert outer + FilePatches(refs[..j + 1], libraries) == middle + LibraryPatches(refs[j], libraries);
        if refs[j].libName !in libraries {
          assert middle + [] == middle;
          continue;
        }
        var addr := libraries[refs[j].libName];
        var fixups := refs[j].fixups;
        assert middle + FixupPatches(fixups[..0], addr) == middle;
        for k := 0 to |fixups|
          invariant code == ApplyAll(bytecode, middle + FixupPatches(fixups[..k], addr))
        {
          var fixup := fixups[k];
          NextFixup(bytecode, middle, fixups, k, addr);
          code := Substr(code, 0, 2 + fixup.start * 2)
                + SubstrFrom(addr, 2)
                + SubstrFrom(code, 2 + (fixup.start + fixup.length) * 2);
        }
        assert fixups[..|fixups|] == fixups;
      }
      assert refs[..|refs|] == refs;
      NextFile(files, i, libraries);
    }
    assert files[..|files|] == files;
    if Linkable(bytecode, files, libraries) {
      LinkIsCorrect(bytecode, files, libraries);
    }
  }

  // ---------- What linking means ----------

  /** The fixup lies in a string of n characters and the address has the fixup's length. */
  predicate Fits(n: nat, fixup: Fixup, addr: string) {
    2 + 2 * (fixup.start + fixup.length) <= n && |addr| == 2 + 2 * fixup.length
  }

  /** The output has the input's length, holds the address of every patch at its fixup and is the input elsewhere. */
  ghost predicate Linked(code: string, patches: seq<Patch>, output: string) {
    && |output| == |code|
    && (forall p, k :: p in patches && Fits(|code|, p.fixup, p.addr)
          && 2 + 2 * p.fixup.start <= k < 2 + 2 * (p.fixup.start + p.fixup.length)
          ==> output[k] == p.addr[k - 2 * p.fixup.start])
    && (forall k :: 0 <= k < |code|
          && (forall p :: p in patches ==> !(2 + 2 * p.fixup.start <= k < 2 + 2 * (p.fixup.start + p.fixup.length)))
          ==> output[k] == code[k])
  }

  predicate Disjoint(f: Fixup, g: Fixup) {
    f.start + f.length <= g.start || g.start + g.length <= f.start
  }

  /** All patches fit, and different patches do not overlap. */
  ghost predicate Compatible(n: nat, patches: seq<Patch>) {
    && (forall p :: p in patches ==> Fits(n, p.fixup, p.addr))
    && (forall p, q :: p in patches && q in patches && p != q ==> Disjoint(p.fixup, q.fixup))
  }

  lemma ApplyPatchAt(code: string, p: Patch, k: nat)
    requires Fits(|code|, p.fixup, p.addr) && k < |code|
    ensures |ApplyPatch(code, p)| == |code|
    ensures ApplyPatch(code, p)[k]
         == if 2 + 2 * p.fixup.start <= k < 2 + 2 * (p.fixup.start + p.fixup.length)
            then p.addr[k - 2 * p.fixup.start]
            else code[k]
  {
  }

  /** Applying compatible patches one after the other links the code. */
  lemma {:induction false} ApplyAllLinks(code: string, patches: seq<Patch>)
    requires Compatible(|code|, patches)
    ensures Linked(code, patches, ApplyAll(code, patches))
  {
    if patches == [] {
    } else {
      hide Linked, ApplyPatch;
      var before, last := patches[..|patches| - 1], patches[|patches| - 1];
      assert patches == before + [last];
      ApplyAllLinks(code, before);
      OneMoreLinks(code, before, last, ApplyAll(code, before));
    }
  }

  lemma OneMoreLinks(code: string, before: seq<Patch>, last: Patch, middle: string)
    requires Compatible(|code|, before + [last]) && Linked(code, before, middle)
    ensures Linked(code, before + [last], ApplyPatch(middle, last))
  {
    hide ApplyPatch;
    var output := ApplyPatch(middle, last);
    ApplyPatchLength(middle, last);
    forall p, k | p in before + [last] && Fits(|code|, p.fixup, p.addr)
                  && 2 + 2 * p.fixup.start <= k < 2 + 2 * (p.fixup.start + p.fixup.length)
      ensures output[k] == p.addr[k - 2 * p.fixup.start]
    {
      ApplyPatchAt(middle, last, k);
    }
    forall k | 0 <= k < |code|
               && forall p :: p in before + [last]
                    ==> !(2 + 2 * p.fixup.start <= k < 2 + 2 * (p.fixup.start + p.fixup.length))
      ensures output[k] == code[k]
    {
      ApplyPatchAt(middle, last, k);
      assert last in before + [last] && forall p :: p in before ==> p in before + [last];
    }
  }

  lemma ApplyPatchLength(code: string, p: Patch)
    requires Fits(|code|, p.fixup, p.addr)
    ensures |ApplyPatch(code, p)| == |code|
  {
  }

  /** Patches with the same elements, in whatever order and number, describe the same output, and only one. */
  lemma LinkedUnique(code: string, patches: seq<Patch>, patches': seq<Patch>, output: string, output': string)
    requires Compatible(|code|, patches) && forall p :: p in patches <==> p in patches'
    requires Linked(code, patches, output) && Linked(code, patches', output')
    ensures output == output'
  {
    forall k | 0 <= k < |code|
      ensures output[k] == output'[k]
    {
      if p :| p in patches && 2 + 2 * p.fixup.start <= k < 2 + 2 * (p.fixup.start + p.fixup.length) {
        assert p in patches' && Fits(|code|, p.fixup, p.addr);
      }
    }
  }

  lemma OrderFree(code: string, patches: seq<Patch>, patches': seq<Patch>)
    requires Compatible(|code|, patches) && forall p :: p in patches <==> p in patches'
    ensures ApplyAll(code, patches) == ApplyAll(code, patches')
  {
    ApplyAllLinks(code, patches);
    ApplyAllLinks(code, patches');
    LinkedUnique(code, patches, patches', ApplyAll(code, patches), ApplyAll(code, patches'));
  }

  // ---------- The patches of a set of libraries ----------

  /** Some file refers to the library at the fixup. */
  ghost predicate Refers(files: seq<FileReferences>, libName: string, fixup: Fixup) {
    exists f, l :: f in files && l in f.libraries && l.libName == libName && fixup in l.fixups
  }

  ghost predicate RefersIn(refs: seq<LibraryReferences>, libName: string, fixup: Fixup) {
    exists l :: l in refs && l.libName == libName && fixup in l.fixups
  }

  ghost predicate Known(libraries: map<string, string>, libName: string, addr: string) {
    libName in libraries && libraries[libName] == addr
  }

  lemma {:induction false} FilePatchesAre(refs: seq<LibraryReferences>, libraries: map<string, string>, p: Patch)
    ensures p in FilePatches(refs, libraries)
       <==> exists libName :: Known(libraries, libName, p.addr) && RefersIn(refs, libName, p.fixup)
  {
    if refs != [] {
      var before, last := refs[..|refs| - 1], refs[|refs| - 1];
      assert refs == before + [last];
      FilePatchesAre(before, libraries, p);
      assert p in LibraryPatches(last, libraries)
        <==> Known(libraries, last.libName, p.addr) && p.fixup in last.fixups by {
        if last.libName in libraries && p.fixup in last.fixups && libraries[last.libName] == p.addr {
          var i :| 0 <= i < |last.fixups| && last.fixups[i] == p.fixup;
          assert FixupPatches(last.fixups, p.addr)[i] == p;
        }
      }
      forall libName
        ensures RefersIn(refs, libName, p.fixup)
           <==> RefersIn(before, libName, p.fixup) || (last.libName == libName && p.fixup in last.fixups)
      {
      }
    }
  }

  /** The patches are the references to the known libraries, each with its library's address. */
  lemma {:induction false} PatchesAre(files: seq<FileReferences>, libraries: map<string, string>, p: Patch)
    ensures p in AllPatches(files, libraries)
       <==> exists libName :: Known(libraries, libName, p.addr) && Refers(files, libName, p.fixup)
  {
    if files != [] {
      var before, last := files[..|files| - 1], files[|files| - 1];
      assert files == before + [last];
      PatchesAre(before, libraries, p);
      FilePatchesAre(last.libraries, libraries, p);
      forall libName
        ensures Refers(files, libName, p.fixup)
           <==> Refers(before, libName, p.fixup) || RefersIn(last.libraries, libName, p.fixup)
      {
        if RefersIn(last.libraries, libName, p.fixup) {
          var l :| l in last.libraries && l.libName == libName && p.fixup in l.fixups;
          assert last in files;
        }
      }
    }
  }

  // ---------- Linking ----------

  /** Some file refers to a known library at the fixup, with the given address. */
  ghost predicate Placed(files: seq<FileReferences>, libraries: map<string, string>, fixup: Fixup, addr: string) {
    exists f, l :: f in files && l in f.libraries && fixup in l.fixups
                   && l.libName in libraries && libraries[l.libName] == addr
  }

  /** Every known address fits at each of its fixups, and no two of them overlap. */
  ghost predicate Linkable(code: string, files: seq<FileReferences>, libraries: map<string, string>) {
    && (forall fixup, addr :: Placed(files, libraries, fixup, addr) ==> Fits(|code|, fixup, addr))
    && (forall fixup, addr, fixup', addr' |
          Placed(files, libraries, fixup, addr) && Placed(files, libraries, fixup', addr')
          && (fixup != fixup' || addr != addr') :: Disjoint(fixup, fixup'))
  }

  /** A byte is two characters, after the two of the prefix: at every reference to a known library the output holds
      the library's address without its prefix; every other position, and so the prefix, is that of the input. */
  ghost predicate IsLinked(code: string, files: seq<FileReferences>, libraries: map<string, string>, output: string) {
    && |output| == |code|
    && (2 <= |code| ==> output[..2] == code[..2])
    && (forall f, l, fixup | f in files && l in f.libraries && l.libName in libraries && fixup in l.fixups ::
          && 2 + 2 * (fixup.start + fixup.length) <= |output| && 2 <= |libraries[l.libName]|
          && output[2 + 2 * fixup.start..2 + 2 * (fixup.start + fixup.length)] == libraries[l.libName][2..])
    && (forall k | 0 <= k < |code|
                   && (forall f, l, fixup | f in files && l in f.libraries && l.libName in libraries
                                            && fixup in l.fixups ::
                         !(2 + 2 * fixup.start <= k < 2 + 2 * (fixup.start + fixup.length))) ::
          output[k] == code[k])
  }

  lemma PlacedArePatches(files: seq<FileReferences>, libraries: map<string, string>, fixup: Fixup, addr: string)
    ensures Placed(files, libraries, fixup, addr) <==> Patch(fixup, addr) in AllPatches(files, libraries)
  {
    PatchesAre(files, libraries, Patch(fixup, addr));
    if Placed(files, libraries, fixup, addr) {
      var f, l :| f in files && l in f.libraries && fixup in l.fixups
                  && l.libName in libraries && libraries[l.libName] == addr;
      assert Known(libraries, l.libName, addr) && Refers(files, l.libName, fixup);
    }
  }

  lemma LinkableIsCompatible(code: string, files: seq<FileReferences>, libraries: map<string, string>)
    requires Linkable(code, files, libraries)
    ensures Compatible(|code|, AllPatches(files, libraries))
  {
    hide Fits, Disjoint;
    forall p | p in AllPatches(files, libraries)
      ensures Placed(files, libraries, p.fixup, p.addr)
    {
      PlacedArePatches(files, libraries, p.fixup, p.addr);
    }
  }

  /** Linking writes every known library's address at each of its fixups and changes nothing else, and linking again
      changes nothing at all. */
  lemma LinkIsCorrect(code: string, files: seq<FileReferences>, libraries: map<string, string>)
    requires Linkable(code, files, libraries)
    ensures IsLinked(code, files, libraries, Link(code, files, libraries))
    ensures Link(Link(code, files, libraries), files, libraries) == Link(code, files, libraries)
  {
    hide AllPatches, ApplyAll, ApplyPatch, Linkable, Compatible, IsLinked, Linked;
    var patches := AllPatches(files, libraries);
    LinkableIsCompatible(code, files, libraries);
    ApplyAllLinks(code, patches);
    LinkedIsLinked(code, files, libraries, Link(code, files, libraries));
    ApplyAllConcat(code, patches, patches);
    OrderFree(code, patches, patches + patches);
  }

  lemma LinkedIsLinked(code: string, files: seq<FileReferences>, libraries: map<string, string>, output: string)
    requires Linkable(code, files, libraries) && Linked(code, AllPatches(files, libraries), output)
    ensures IsLinked(code, files, libraries, output)
  {
    hide AllPatches, Fits, Disjoint;
    ReferencesAreWritten(code, files, libraries, output);
    OthersAreKept(code, files, libraries, output);
    assert 2 <= |code| ==> output[..2] == [output[0], output[1]] && code[..2] == [code[0], code[1]];
  }

  lemma ReferencesAreWritten(code: string, files: seq<FileReferences>, libraries: map<string, string>, output: string)
    requires Linkable(code, files, libraries) && Linked(code, AllPatches(files, libraries), output)
    ensures forall f, l, fixup | f in files && l in f.libraries && l.libName in libraries && fixup in l.fixups ::
        && 2 + 2 * (fixup.start + fixup.length) <= |output| && 2 <= |libraries[l.libName]|
        && output[2 + 2 * fixup.start..2 + 2 * (fixup.start + fixup.length)] == libraries[l.libName][2..]
  {
    forall f, l, fixup | f in files && l in f.libraries && l.libName in libraries && fixup in l.fixups
      ensures 2 + 2 * (fixup.start + fixup.length) <= |output| && 2 <= |libraries[l.libName]|
      ensures output[2 + 2 * fixup.start..2 + 2 * (fixup.start + fixup.length)] == libraries[l.libName][2..]
    {
      var p := Patch(fixup, libraries[l.libName]);
      assert Placed(files, libraries, fixup, p.addr);
      PlacedArePatches(files, libraries, fixup, p.addr);
      forall k | 2 + 2 * fixup.start <= k < 2 + 2 * (fixup.start + fixup.length)
        ensures output[k] == p.addr[k - 2 * fixup.start]
      {
      }
    }
  }

  lemma OthersAreKept(code: string, files: seq<FileReferences>, libraries: map<string, string>, output: string)
    requires Linked(code, AllPatches(files, libraries), output)
    ensures forall k | 0 <= k < |code|
                       && (forall f, l, fixup | f in files && l in f.libraries && l.libName in libraries
                                                && fixup in l.fixups ::
                             !(2 + 2 * fixup.start <= k < 2 + 2 * (fixup.start + fixup.length))) ::
              output[k] == code[k]
  {
    forall k | 0 <= k < |code|
               && forall f, l, fixup | f in files && l in f.libraries && l.libName in libraries && fixup in l.fixups ::
                    !(2 + 2 * fixup.start <= k < 2 + 2 * (fixup.start + fixup.length))
      ensures output[k] == code[k]
    {
      forall p | p in AllPatches(files, libraries)
        ensures !(2 + 2 * p.fixup.start <= k < 2 + 2 * (p.fixup.start + p.fixup.length))
      {
        PlacedArePatches(files, libraries, p.fixup, p.addr);
      }
    }
  }

  /** The order and the grouping of the references do not matter. */
  lemma LinkIsOrderFree(code: string, files: seq<FileReferences>, files': seq<FileReferences>,
                        libraries: map<string, string>)
    requires Linkable(code, files, libraries)
    requires forall libName, fixup :: Refers(files, libName, fixup) <==> Refers(files', libName, fixup)
    ensures Link(code, files, libraries) == Link(code, files', libraries)
  {
    forall p: Patch
      ensures p in AllPatches(files, libraries) <==> p in AllPatches(files', libraries)
    {
      PatchesAre(files, libraries, p);
      PatchesAre(files', libraries, p);
    }
    LinkableIsCompatible(code, files, libraries);
    OrderFree(code, AllPatches(files, libraries), AllPatches(files', libraries));
  }

  /** Linking with two disjoint sets of libraries, in either order, is linking with all of them at once. */
  lemma LinkTwice(code: string, files: seq<FileReferences>, first: map<string, string>, second: map<string, string>)
    requires first.Keys !! second.Keys && Linkable(code, files, first + second)
    ensures Link(Link(code, files, first), files, second) == Link(code, files, first + second)
    ensures Link(Link(code, files, second), files, first) == Link(code, files, first + second)
  {
    var all, one, two := AllPatches(files, first + second), AllPatches(files, first), AllPatches(files, second);
    forall p: Patch
      ensures p in all <==> p in one + two
      ensures p in all <==> p in two + one
    {
      PatchesAre(files, first + second, p);
      PatchesAre(files, first, p);
      PatchesAre(files, second, p);
      forall libName
        ensures Known(first + second, libName, p.addr)
           <==> Known(first, libName, p.addr) || Known(second, libName, p.addr)
      {
      }
    }
    LinkableIsCompatible(code, files, first + second);
    ApplyAllConcat(code, one, two);
    ApplyAllConcat(code, two, one);
    OrderFree(code, all, one + two);
    OrderFree(code, all, two + one);
  }
}
