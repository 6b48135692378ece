/** Which destinations an upload may have, said in characters. */
module UploadTargets {
  import opened Bytes
  import opened LedgerText
  import opened StagedMapRecord
  import opened MapUpload

  /** A name without zeros, slashes and backslashes; a dot is followed by something other than a dot. */
  predicate PlainStem(stem: seq<byte>) {
    && stem != []
    && (forall b | b in stem :: b != 0 && b as char != '/' && b as char != '\\')
    && (forall i | 0 <= i < |stem| && stem[i] as char == '.' :: i + 1 < |stem| && stem[i + 1] as char != '.')
  }

  /** ".ptm" in capital or small letters. */
  predicate IsExtension(e: seq<byte>) {
    && |e| == 4 && e[0] as char == '.' && e[1] as char in "pP" && e[2] as char in "tT" && e[3] as char in "mM"
  }

  predicate NamesMap(path: seq<byte>, stem: seq<byte>, extension: seq<byte>) {
    path == Ascii("maps/") + stem + extension && PlainStem(stem) && IsExtension(extension)
  }

  lemma PrefixIs()
    ensures Ascii("maps/") == MAPS_PREFIX
    ensures Ascii("images/startup_screen.fb") == STARTUP_PATH
  {
  }

  lemma ExtensionIff(e: seq<byte>)
    requires |e| == 4
    ensures IsExtension(e) <==> forall i | 0 <= i < 4 :: LowerCase(e[i]) == MAP_EXTENSION[i]
  {
    assert MAP_EXTENSION[0] == 0x2e && MAP_EXTENSION[1] == 0x70 && MAP_EXTENSION[2] == 0x74 && MAP_EXTENSION[3] == 0x6d;
  }

  predicate PlainAt(stem: seq<byte>, i: nat)
    requires i < |stem|
  {
    && stem[i] != 0 && stem[i] != SLASH && stem[i] != BACKSLASH
    && (stem[i] == DOT ==> i + 1 < |stem| && stem[i + 1] != DOT)
  }

  lemma PlainIff(stem: seq<byte>)
    ensures PlainStem(stem) <==> stem != [] && forall i | 0 <= i < |stem| :: PlainAt(stem, i)
  {
    if PlainStem(stem) {
      assert forall i | 0 <= i < |stem| :: stem[i] in stem;
    }
    if forall i | 0 <= i < |stem| :: PlainAt(stem, i) {
      forall b | b in stem
        ensures b != 0 && b as char != '/' && b as char != '\\'
      {
        var i :| 0 <= i < |stem| && stem[i] == b;
        assert PlainAt(stem, i);
      }
      forall i | 0 <= i < |stem| && stem[i] as char == '.'
        ensures i + 1 < |stem| && stem[i + 1] as char != '.'
      {
        assert PlainAt(stem, i);
      }
    }
  }

  lemma SafeAt(stem: seq<byte>, e: seq<byte>, i: nat)
    requires IsExtension(e) && i < |stem| + 4
    ensures SafeFileByte(MAPS_PREFIX + stem + e, i + 5) <==> i >= |stem| || PlainAt(stem, i)
  {
    var path := MAPS_PREFIX + stem + e;
    if i < |stem| {
      assert path[i + 5] == stem[i];
      assert path[i + 6] == if i + 1 < |stem| then stem[i + 1] else e[0];
    } else {
      var k := i - |stem|;
      assert path[i + 5] == e[k];
      assert k < 3 ==> path[i + 6] == e[k + 1];
    }
  }

  /** Where an extension follows, the stem is plain exactly when every byte of the file name is safe. */
  lemma StemIff(stem: seq<byte>, e: seq<byte>)
    requires IsExtension(e) && stem != []
    ensures var path := MAPS_PREFIX + stem + e;
            PlainStem(stem) <==> forall i | |MAPS_PREFIX| <= i < |path| :: SafeFileByte(path, i)
  {
    hide SafeFileByte, PlainAt, PlainStem;
    var path := MAPS_PREFIX + stem + e;
    PlainIff(stem);
    PartsLength(e);
    if PlainStem(stem) {
      forall i | 5 <= i < |path|
        ensures SafeFileByte(path, i)
      {
        SafeAt(stem, e, i - 5);
      }
    }
    if forall i | |MAPS_PREFIX| <= i < |path| :: SafeFileByte(path, i) {
      forall i | 0 <= i < |stem|
        ensures PlainAt(stem, i)
      {
        SafeAt(stem, e, i);
      }
    }
  }

  lemma PartsLength(e: seq<byte>)
    requires IsExtension(e)
    ensures |e| == 4
  {
  }

  /**
   * An upload may replace the startup screen at its exact size, or a map directly under maps by its plain name, of one
   * byte to sixteen mebibytes less five bytes; nothing else.
   */
  lemma TargetIff(path: seq<byte>, size: u32)
    ensures TargetKind(path, size) == Some(StartupImageKind) <==> path == Ascii("images/startup_screen.fb") && size == 153600
    ensures TargetKind(path, size) == Some(MapKind) <==>
              1 <= size <= 16777211 && exists stem, extension :: NamesMap(path, stem, extension)
  {
    PrefixIs();
    if stem, extension :| NamesMap(path, stem, extension) {
      MapIsTarget(path, size, stem, extension);
    }
    if TargetKind(path, size) == Some(MapKind) {
      var stem, extension := path[5..|path| - 4], path[|path| - 4..];
      assert path == MAPS_PREFIX + stem + extension by {
        assert path[..5] == MAPS_PREFIX;
      }
      ExtensionIff(extension);
      StemIff(stem, extension);
      assert NamesMap(path, stem, extension);
    }
  }

  lemma MapIsTarget(path: seq<byte>, size: u32, stem: seq<byte>, extension: seq<byte>)
    requires NamesMap(path, stem, extension)
    ensures TargetKind(path, size) == if 1 <= size <= 16777211 then Some(MapKind) else None
  {
    hide SafeFileByte, LowerCase, PlainStem, IsExtension;
    PrefixIs();
    PartsNonempty(stem, extension);
    ExtensionIff(extension);
    StemIff(stem, extension);
    assert path[..5] == MAPS_PREFIX && path[|path| - 4..] == extension;
    if 1 <= size <= 16777211 {
      assert forall i | 0 <= i < 4 :: path[|path| - 4 + i] == extension[i];
      MapPermitted(path, size);
    } else {
      assert path[0] != STARTUP_PATH[0];
    }
  }

  lemma PartsNonempty(stem: seq<byte>, e: seq<byte>)
    requires PlainStem(stem) && IsExtension(e)
    ensures stem != [] && |e| == 4
  {
  }

  /** The name an upload is staged under is the file's own. */
  lemma TargetName(path: seq<byte>, size: u32)
    requires TargetKind(path, size).Some?
    ensures BaseName(path) == Some(if path == STARTUP_PATH then Ascii("startup_screen.fb") else path[5..])
  {
    hide BaseName, TargetKind, PlainStem, IsExtension, NamesMap;
    PrefixIs();
    TargetIff(path, size);
    match TargetKind(path, size).value {
      case StartupImageKind => ScreenName(path);
      case MapKind =>
        var stem, extension :| NamesMap(path, stem, extension);
        MapName(path, stem, extension);
    }
  }

  lemma ScreenName(path: seq<byte>)
    requires path == Ascii("images/startup_screen.fb")
    ensures BaseName(path) == Some(Ascii("startup_screen.fb"))
  {
    hide BaseName;
    assert path == path[..6] + [SLASH] + Ascii("startup_screen.fb");
    BaseNameOf(path[..6], Ascii("startup_screen.fb"));
  }

  lemma MapName(path: seq<byte>, stem: seq<byte>, extension: seq<byte>)
    requires NamesMap(path, stem, extension)
    ensures path != STARTUP_PATH && BaseName(path) == Some(path[5..])
  {
    hide BaseName;
    PrefixIs();
    var name := stem + extension;
    assert SLASH !in stem by {
      assert forall b | b in stem :: b as char != '/';
    }
    assert SLASH !in extension;
    assert path[0] != STARTUP_PATH[0];
    assert path[5..] == name && path == MAPS_PREFIX[..4] + [SLASH] + name;
    BaseNameOf(MAPS_PREFIX[..4], name);
  }
}
