/**
 * The pure part of convert_toontrack_midi.py: decoding a vendor MIDI path
 * into its fields, normalising the groove type, and encoding the destination
 * folder and file names.
 */
module MidiNames {
  import opened Results
  import opened PyStr

  /** The Python exceptions that decoding a path can raise. */
  datatype PathError =
    | IndexError  // a list index past the end: a missing `@` or a missing path component
    | ValueError  // unpacking a split into two names met a different number of pieces
    | TypeError   // `re.search` found no digit, and its `None` result was indexed

  /** The 8-tuple `(path, bpm, package, groove, signature, group, type, variation)`. */
  datatype Descriptor = Descriptor(
    path: string,
    bpm: string,
    package: string,
    groove: string,
    signature: string,
    group: string,
    kind: string,
    variation: string)

  /** The separator `convert_path` splits on: a single backslash. */
  const Backslash: char := '\\'

  /**
   * `convert_package_name`: the text between the first and the second `@`,
   * with every `_` replaced by a space; an `IndexError` when there is no `@`.
   */
  function ConvertPackageName(name: string): (r: Result<string, PathError>)
    ensures r.Ok? <==> '@' in name
    ensures r.Ok? ==> '_' !in r.value && '@' !in r.value
    ensures r.Err? ==> r.error == IndexError
  {
    var parts := Split(name, '@');
    if |parts| < 2 then Err(IndexError)
    else
      ReplaceChars(parts[1], '_', ' ', '@');
      Ok(Replace(parts[1], '_', ' '))
  }

  /** The package name of `<id>@<name>` or `<id>@<name>@...` is `<name>` with spaces for `_`. */
  lemma ConvertPackageNameOf(id: string, name: string, rest: string)
    requires '@' !in id && '@' !in name
    requires rest == [] || rest[0] == '@'
    ensures ConvertPackageName(id + "@" + name + rest) == Ok(Replace(name, '_', ' '))
  {
    assert id + "@" + name + rest == id + ['@'] + (name + rest);
    SplitAt(id, '@', name + rest);
    SplitHead(name, '@', rest);
  }

  /** A decoded package name carries no character the package component did not have, but spaces. */
  lemma ConvertPackageNameChars(name: string, c: char)
    requires ConvertPackageName(name).Ok?
    requires c in ConvertPackageName(name).value
    ensures c in name || c == ' '
  {
    var parts := Split(name, '@');
    ReplaceChars(parts[1], '_', ' ', c);
    if c != ' ' {
      SplitPieceChar(name, '@', 1, c);
    }
  }

  predicate IsDigit(c: char) { '0' <= c <= '9' }

  predicate HasDigit(s: string) { exists i :: 0 <= i < |s| && IsDigit(s[i]) }

  /** The longest prefix of `s` made of digits. */
  function DigitRun(s: string): (r: string)
    ensures |r| <= |s| && r == s[..|r|]
    ensures forall i :: 0 <= i < |r| ==> IsDigit(r[i])
    ensures |r| < |s| ==> !IsDigit(s[|r|])
  {
    if s != [] && IsDigit(s[0]) then [s[0]] + DigitRun(s[1..]) else []
  }

  /**
   * `extract_number`: the first match of the regular expression `\d+`, that
   * is the first maximal run of digits; a `TypeError` when there is no digit.
   */
  function ExtractNumber(s: string): (r: Result<string, PathError>)
    ensures r.Ok? <==> HasDigit(s)
    ensures r.Ok? ==> r.value != [] && forall i :: 0 <= i < |r.value| ==> IsDigit(r.value[i])
    ensures r.Err? ==> r.error == TypeError
  {
    if s == [] then Err(TypeError)
    else if IsDigit(s[0]) then Ok(DigitRun(s))
    else
      var r := ExtractNumber(s[1..]);
      assert HasDigit(s[1..]) ==> HasDigit(s) by {
        if HasDigit(s[1..]) {
          var i :| 0 <= i < |s[1..]| && IsDigit(s[1..][i]);
          assert IsDigit(s[i + 1]);
        }
      }
      assert HasDigit(s) ==> HasDigit(s[1..]) by {
        if HasDigit(s) {
          var i :| 0 <= i < |s| && IsDigit(s[i]);
          assert i != 0 && IsDigit(s[1..][i - 1]);
        }
      }
      r
  }

  /**
   * Where the extracted number sits: at a position `i` with no digit before
   * it, followed by the end of the string or by a non-digit.
   */
  lemma {:induction false} ExtractNumberAt(s: string) returns (i: nat)
    requires ExtractNumber(s).Ok?
    ensures var n := ExtractNumber(s).value;
      && i + |n| <= |s| && s[i..i + |n|] == n
      && (forall k :: 0 <= k < i ==> !IsDigit(s[k]))
      && (i + |n| == |s| || !IsDigit(s[i + |n|]))
  {
    var n := ExtractNumber(s).value;
    if IsDigit(s[0]) {
      i := 0;
    } else {
      var t := s[1..];
      assert ExtractNumber(t) == ExtractNumber(s);
      var j := ExtractNumberAt(t);
      i := j + 1;
      var here, there := s[i..i + |n|], t[j..j + |n|];
      forall k | 0 <= k < |n|
        ensures here[k] == there[k]
      {
        assert here[k] == s[i + k] && there[k] == t[j + k];
      }
      assert here == there;
      forall k | 0 <= k < i
        ensures !IsDigit(s[k])
      {
        if k > 0 {
          assert s[k] == t[k - 1];
        }
      }
    }
  }

  /**
   * `convert_type`: title-case the vendor type, then rename the plurals
   * Fills, Breaks and Grooves, one conditional reassignment after another.
   */
  function ConvertType(kind: string): (r: string)
    ensures r != "Fills" && r != "Breaks" && r != "Grooves"
  {
    var t1 := Title(kind);
    var t2 := if t1 == "Fills" then "Fill" else t1;
    var t3 := if t2 == "Breaks" then "Break" else t2;
    if t3 == "Grooves" then "Groove" else t3
  }

  /**
   * The chain of reassignments is a table lookup on the title case: the three
   * plurals map to their singular, everything else to its title case, and the
   * result is title-cased.
   */
  lemma ConvertTypeTable(kind: string)
    ensures ConvertType(kind) ==
      if Title(kind) == "Fills" then "Fill"
      else if Title(kind) == "Breaks" then "Break"
      else if Title(kind) == "Grooves" then "Groove"
      else Title(kind)
    ensures Title(ConvertType(kind)) == ConvertType(kind)
  {
    TitleIdempotent(kind);
    FillBreakGrooveTitled();
    TitleFixed("Fill", false);
    TitleFixed("Break", false);
    TitleFixed("Groove", false);
  }

  /** The three singular types are already title-cased, one letter at a time. */
  lemma FillBreakGrooveTitled()
    ensures TitleCasedFrom("Fill", false) && TitleCasedFrom("Break", false) && TitleCasedFrom("Groove", false)
  {
    CapitalizedTitleCased('F', "ill");
    assert ['F'] + "ill" == "Fill";
    CapitalizedTitleCased('B', "reak");
    assert ['B'] + "reak" == "Break";
    CapitalizedTitleCased('G', "roove");
    assert ['G'] + "roove" == "Groove";
  }

  /** Normalising a normalised type changes nothing. */
  lemma ConvertTypeIdempotent(kind: string)
    ensures ConvertType(ConvertType(kind)) == ConvertType(kind)
  {
    ConvertTypeTable(kind);
    ConvertTypeTable(ConvertType(kind));
  }

  /**
   * `convert_path`: split the path on backslashes and decode the first four
   * components in the order the source does, raising the first exception met.
   */
  function ConvertPath(path: string): (r: Result<Descriptor, PathError>)
    ensures r.Ok? ==> r.value.path == path
  {
    var components := Split(path, Backslash);
    var package :- ConvertPackageName(components[0]);
    if |components| < 2 then Err(IndexError)
    else
      var at1 := Split(components[1], '@');
      if |at1| < 2 then Err(IndexError)
      else
        var grooveSignature := Split(at1[1], '_');
        if |grooveSignature| != 2 then Err(ValueError)
        else if |components| < 3 then Err(IndexError)
        else
          var bpmTemp := Split(components[2], '-');
          if |bpmTemp| != 2 then Err(ValueError)
          else
            var groupType := Split(bpmTemp[1], '@');
            if |groupType| != 2 then Err(ValueError)
            else if |components| < 4 then Err(IndexError)
            else
              var variation :- ExtractNumber(components[3]);
              Ok(Descriptor(path, bpmTemp[0], package, Title(grooveSignature[0]), grooveSignature[1],
                            groupType[0], ConvertType(groupType[1]), variation))
  }

  /** The conditions under which `convert_path` raises nothing. */
  predicate WellFormedPath(path: string)
  {
    var c := Split(path, Backslash);
    && |c| >= 4
    && '@' in c[0]
    && '@' in c[1] && Count(Split(c[1], '@')[1], '_') == 1
    && Count(c[2], '-') == 1 && Count(Split(c[2], '-')[1], '@') == 1
    && HasDigit(c[3])
  }

  /** Decoding succeeds exactly on well-formed paths. */
  lemma ConvertPathSucceeds(path: string)
    ensures ConvertPath(path).Ok? <==> WellFormedPath(path)
  {
  }

  /**
   * A path without a backslash, such as one written with `/` separators, is a
   * single component: decoding it raises IndexError, at the latest when
   * component 1 is looked up.
   */
  lemma NoBackslashRaises(path: string)
    requires Backslash !in path
    ensures ConvertPath(path) == Err(IndexError)
  {
    SplitWithout(path, Backslash);
  }

  /** A decoded package name has neither a backslash nor an `@`. */
  lemma DecodedPackageChars(path: string)
    requires ConvertPath(path).Ok?
    ensures Backslash !in ConvertPath(path).value.package
    ensures '@' !in ConvertPath(path).value.package
  {
    var c := Split(path, Backslash);
    if Backslash in ConvertPath(path).value.package {
      ConvertPackageNameChars(c[0], Backslash);
    }
  }

  /**
   * What every decoded descriptor satisfies: the first component of its path
   * has an `@`, and its package has neither an `@` nor a backslash.
   */
  predicate DecoderOutput(m: Descriptor)
  {
    && '@' in Split(m.path, Backslash)[0]
    && '@' !in m.package
    && Backslash !in m.package
  }

  /** Decoding produces only descriptors that satisfy `DecoderOutput`. */
  lemma ConvertPathOutput(path: string)
    requires ConvertPath(path).Ok?
    ensures DecoderOutput(ConvertPath(path).value)
  {
    DecodedPackageChars(path);
    ConvertPathSucceeds(path);
  }

  /** The backslash components of a path assembled from three components and a leaf. */
  lemma PathComponents(c0: string, c1: string, c2: string, leaf: string, rest: string)
    requires Backslash !in c0 && Backslash !in c1 && Backslash !in c2 && Backslash !in leaf
    requires rest == [] || rest[0] == Backslash
    ensures var c := Split(c0 + "\\" + (c1 + "\\" + (c2 + "\\" + (leaf + rest))), Backslash);
      |c| >= 4 && c[0] == c0 && c[1] == c1 && c[2] == c2 && c[3] == leaf
  {
    SplitAt(c0, Backslash, c1 + "\\" + (c2 + "\\" + (leaf + rest)));
    SplitAt(c1, Backslash, c2 + "\\" + (leaf + rest));
    SplitAt(c2, Backslash, leaf + rest);
    SplitHead(leaf, Backslash, rest);
  }

  /**
   * The decode round trip: a path assembled from fields in the vendor layout
   * `id@P\x@G_S\B-R@T\leaf...` decodes to those fields.
   */
  lemma DecodeRoundTrip(id: string, package: string, prefix: string, groove: string, signature: string,
                        bpm: string, group: string, kind: string, leaf: string, rest: string)
    requires Backslash !in id && Backslash !in package && Backslash !in prefix && Backslash !in groove
    requires Backslash !in signature && Backslash !in bpm && Backslash !in group && Backslash !in kind
    requires Backslash !in leaf && (rest == [] || rest[0] == Backslash)
    requires '@' !in id && '@' !in package
    requires '@' !in prefix && '@' !in groove && '@' !in signature && '_' !in groove && '_' !in signature
    requires '-' !in bpm && '-' !in group && '-' !in kind && '@' !in group && '@' !in kind
    requires HasDigit(leaf)
    ensures var path := (id + "@" + package) + "\\" + ((prefix + "@" + groove + "_" + signature) + "\\"
                        + ((bpm + "-" + group + "@" + kind) + "\\" + (leaf + rest)));
      ConvertPath(path) == Ok(Descriptor(path, bpm, Replace(package, '_', ' '), Title(groove), signature,
                                         group, ConvertType(kind), ExtractNumber(leaf).value))
  {
    var c0 := id + "@" + package;
    var c1 := prefix + "@" + groove + "_" + signature;
    var c2 := bpm + "-" + group + "@" + kind;
    PathComponents(c0, c1, c2, leaf, rest);
    ConvertPackageNameOf(id, package, "");
    assert c0 + "" == c0;
    GrooveComponent(prefix, groove, signature);
    TempoComponent(bpm, group, kind);
    DecodeComponents(Split(c0 + "\\" + (c1 + "\\" + (c2 + "\\" + (leaf + rest))), Backslash),
                     c0 + "\\" + (c1 + "\\" + (c2 + "\\" + (leaf + rest))));
  }

  /**
   * `convert_path` on components that each decode: the descriptor is made of
   * the pieces of the components.
   */
  lemma DecodeComponents(c: seq<string>, path: string)
    requires c == Split(path, Backslash) && |c| >= 4
    requires ConvertPackageName(c[0]).Ok?
    requires var at := Split(c[1], '@'); |at| >= 2 && |Split(at[1], '_')| == 2
    requires var dash := Split(c[2], '-'); |dash| == 2 && |Split(dash[1], '@')| == 2
    requires HasDigit(c[3])
    ensures var grooveSignature := Split(Split(c[1], '@')[1], '_');
      var dash := Split(c[2], '-');
      var groupType := Split(dash[1], '@');
      ConvertPath(path) == Ok(Descriptor(path, dash[0], ConvertPackageName(c[0]).value, Title(grooveSignature[0]),
                                         grooveSignature[1], groupType[0], ConvertType(groupType[1]),
                                         ExtractNumber(c[3]).value))
  {
  }

  lemma GrooveComponent(prefix: string, groove: string, signature: string)
    requires '@' !in prefix && '@' !in groove && '@' !in signature && '_' !in groove && '_' !in signature
    ensures var at := Split(prefix + "@" + groove + "_" + signature, '@');
      |at| == 2 && Split(at[1], '_') == [groove, signature]
  {
    assert prefix + "@" + groove + "_" + signature == prefix + ['@'] + (groove + "_" + signature);
    SplitTwo(prefix, '@', groove + "_" + signature);
    SplitTwo(groove, '_', signature);
  }

  lemma TempoComponent(bpm: string, group: string, kind: string)
    requires '-' !in bpm && '-' !in group && '-' !in kind && '@' !in group && '@' !in kind
    ensures var dash := Split(bpm + "-" + group + "@" + kind, '-');
      |dash| == 2 && dash[0] == bpm && Split(dash[1], '@') == [group, kind]
  {
    assert bpm + "-" + group + "@" + kind == bpm + ['-'] + (group + "@" + kind);
    SplitTwo(bpm, '-', group + "@" + kind);
    SplitTwo(group, '@', kind);
  }

  /** The template `file_name` fills. */
  const FileNameFormat: string := "{} {} {} {}_V_{} {}{}{}.mid"

  /** The literal runs of the template, between its fields. */
  const FileNameRuns: seq<string> := ["", " ", " ", " ", "_V_", " ", "", "", ".mid"]

  lemma FileNameTemplate()
    ensures Render(FileNameRuns) == FileNameFormat
  {
    var r8 := [".mid"];
    var r7 := [""] + r8;
    var r6 := [""] + r7;
    var r5 := [" "] + r6;
    var r4 := ["_V_"] + r5;
    var r3 := [" "] + r4;
    var r2 := [" "] + r3;
    var r1 := [" "] + r2;
    var r0 := [""] + r1;
    RenderStep("", r8);
    RenderStep("", r7);
    RenderStep(" ", r6);
    RenderStep("_V_", r5);
    RenderStep(" ", r4);
    RenderStep(" ", r3);
    RenderStep(" ", r2);
    RenderStep("", r1);
    assert r0 == FileNameRuns;
    FileNameFormatNested();
  }

  /** The template, run by run and field by field. */
  lemma FileNameFormatNested()
    ensures FileNameFormat == "" + ("{}" + (" " + ("{}" + (" " + ("{}" + (" " + ("{}" + ("_V_" + ("{}"
      + (" " + ("{}" + ("" + ("{}" + ("" + ("{}" + ".mid")))))))))))))))
  {
  }

  lemma FileNameRunsPlain()
    ensures forall i :: 0 <= i < |FileNameRuns| ==> '{' !in FileNameRuns[i] && '}' !in FileNameRuns[i]
  {
  }

  /** The template filled with eight arguments, written out. */
  lemma FileNameFilled(a: string, b: string, c: string, d: string, e: string, f: string, g: string, h: string)
    ensures Interleave(FileNameRuns, [a, b, c, d, e, f, g, h])
      == a + " " + b + " " + c + " " + d + "_V_" + e + " " + f + g + h + ".mid"
  {
    var s8 := ".mid";
    var s7 := h + s8;
    var s6 := g + s7;
    var s5 := " " + (f + s6);
    var s4 := "_V_" + (e + s5);
    var s3 := " " + (d + s4);
    var s2 := " " + (c + s3);
    var s1 := " " + (b + s2);
    assert Interleave([".mid"], []) == s8;
    assert Interleave(["", ".mid"], [h]) == s7;
    assert Interleave(["", "", ".mid"], [g, h]) == s6;
    assert Interleave([" ", "", "", ".mid"], [f, g, h]) == s5;
    assert Interleave(["_V_", " ", "", "", ".mid"], [e, f, g, h]) == s4;
    assert Interleave([" ", "_V_", " ", "", "", ".mid"], [d, e, f, g, h]) == s3;
    assert Interleave([" ", " ", "_V_", " ", "", "", ".mid"], [c, d, e, f, g, h]) == s2;
    assert Interleave([" ", " ", " ", "_V_", " ", "", "", ".mid"], [b, c, d, e, f, g, h]) == s1;
    assert Interleave(FileNameRuns, [a, b, c, d, e, f, g, h]) == a + s1;
    Assoc(a, " ", b + s2);
    Assoc(a + " ", b, s2);
    Assoc(a + " " + b, " ", c + s3);
    Assoc(a + " " + b + " ", c, s3);
    Assoc(a + " " + b + " " + c, " ", d + s4);
    Assoc(a + " " + b + " " + c + " ", d, s4);
    Assoc(a + " " + b + " " + c + " " + d, "_V_", e + s5);
    Assoc(a + " " + b + " " + c + " " + d + "_V_", e, s5);
    Assoc(a + " " + b + " " + c + " " + d + "_V_" + e, " ", f + s6);
    Assoc(a + " " + b + " " + c + " " + d + "_V_" + e + " ", f, s6);
    Assoc(a + " " + b + " " + c + " " + d + "_V_" + e + " " + f, g, s7);
    Assoc(a + " " + b + " " + c + " " + d + "_V_" + e + " " + f + g, h, s8);
  }

  /**
   * `file_name`: the template filled with package, group, groove, signature,
   * type, number, `_C_` + category and the fill marker `_F_` (for type Fill
   * only), in that order.
   */
  function FileName(package: string, groove: string, signature: string, group: string,
                    kind: string, number: string, category: string): string
  {
    package + " " + group + " " + groove + " " + signature + "_V_" + kind + " " + number
      + "_C_" + category + (if kind == "Fill" then "_F_" else "") + ".mid"
  }

  /** `file_name` is the source's template, which has eight fields, put through `str.format` with its eight arguments. */
  lemma FileNameFormatted(package: string, groove: string, signature: string, group: string,
                          kind: string, number: string, category: string)
    ensures FieldCount(FileNameFormat) == 8
    ensures FileName(package, groove, signature, group, kind, number, category)
      == Format(FileNameFormat, [package, group, groove, signature, kind, number, "_C_" + category,
                                 if kind == "Fill" then "_F_" else ""])
  {
    var fill := if kind == "Fill" then "_F_" else "";
    var tagged := "_C_" + category;
    var args := [package, group, groove, signature, kind, number, tagged, fill];
    FileNameTemplate();
    FileNameRunsPlain();
    FormatRender(FileNameRuns, args);
    FileNameFilled(package, group, groove, signature, kind, number, tagged, fill);
    Assoc(package + " " + group + " " + groove + " " + signature + "_V_" + kind + " " + number, "_C_", category);
  }

  predicate EndsWith(s: string, suffix: string)
  {
    |suffix| <= |s| && s[|s| - |suffix|..] == suffix
  }

  /** Every file name starts with the package and a space. */
  lemma FileNameStart(package: string, groove: string, signature: string, group: string,
                      kind: string, number: string, category: string)
    ensures var r := FileName(package, groove, signature, group, kind, number, category);
      r[..|package| + 1] == package + " "
  {
  }

  /**
   * Every file name ends in `.mid`; a Fill ends in `_C_<category>_F_.mid`,
   * anything else in `_C_<category>.mid`.
   */
  lemma FileNameEnd(package: string, groove: string, signature: string, group: string,
                    kind: string, number: string, category: string)
    ensures var r := FileName(package, groove, signature, group, kind, number, category);
      && EndsWith(r, ".mid")
      && (kind == "Fill" ==> EndsWith(r, "_C_" + category + "_F_.mid"))
      && (kind != "Fill" ==> EndsWith(r, "_C_" + category + ".mid"))
  {
  }

  /**
   * Unless the category itself ends in `_F_`, a file name ends in `_F_.mid`
   * exactly when its type is Fill.
   */
  lemma FillMarker(package: string, groove: string, signature: string, group: string,
                   kind: string, number: string, category: string)
    requires !EndsWith("_C_" + category, "_F_")
    ensures EndsWith(FileName(package, groove, signature, group, kind, number, category), "_F_.mid")
            <==> kind == "Fill"
  {
    var r := FileName(package, groove, signature, group, kind, number, category);
    FileNameEnd(package, groove, signature, group, kind, number, category);
    var tagged := "_C_" + category;
    if kind == "Fill" {
      var tail := tagged + "_F_.mid";
      assert r[|r| - 7..] == tail[|tail| - 7..];
    } else {
      var tail := tagged + ".mid";
      assert r[|r| - |tail|..] == tail;
      assert r[|r| - 7..] == tail[|tail| - 7..];
      assert tail[|tail| - 7..][..3] == tagged[|tagged| - 3..] != "_F_";
    }
  }

  /** `make_folder_name`: "ToonTrack " followed by the title case of the package. */
  function MakeFolderName(package: string): string
  {
    "ToonTrack " + Title(package)
  }

  /** `make_folder_name` is the template "ToonTrack {}" filled with the title-cased package. */
  lemma MakeFolderNameFormatted(package: string)
    ensures FieldCount("ToonTrack {}") == 1
    ensures MakeFolderName(package) == Format("ToonTrack {}", [Title(package)])
  {
    assert Render(["ToonTrack ", ""]) == "ToonTrack {}";
    FormatRender(["ToonTrack ", ""], [Title(package)]);
    assert Title(package) + "" == Title(package);
  }

  /** The name the mapping file gets inside folder `dir`: `dir` followed by ".AD2Map". */
  function MappingFileName(dir: string): string
  {
    dir + ".AD2Map"
  }

  /** The mapping file's name is the template "{}.AD2Map" filled with the folder name. */
  lemma MappingFileNameFormatted(dir: string)
    ensures FieldCount("{}.AD2Map") == 1
    ensures MappingFileName(dir) == Format("{}.AD2Map", [dir])
  {
    assert Render(["", ".AD2Map"]) == "{}.AD2Map";
    FormatRender(["", ".AD2Map"], [dir]);
  }

  /** Characters that are not digits can be skipped in front of the search. */
  lemma {:induction false} ExtractNumberSkip(a: string, b: string)
    requires !HasDigit(a)
    ensures ExtractNumber(a + b) == ExtractNumber(b)
  {
    if a == [] {
      assert a + b == b;
    } else {
      assert (a + b)[0] == a[0] && (a + b)[1..] == a[1..] + b;
      ExtractNumberSkip(a[1..], b);
    }
  }

  /** The variation folder of the usage example yields variation number 01. */
  lemma VariationExample()
    ensures ExtractNumber("Variation_01.mid") == Ok("01")
  {
    assert "Variation_01.mid" == "Variation_" + "01.mid";
    ExtractNumberSkip("Variation_", "01.mid");
    assert DigitRun("01.mid") == "01";
  }

  /** The usage example: package "UK DANCE" goes to folder "ToonTrack Uk Dance". */
  lemma UsageFolderExample()
    ensures MakeFolderName("UK DANCE") == "ToonTrack Uk Dance"
  {
    UsageTitleExample();
  }

  lemma UsageTitleExample()
    ensures Title("UK DANCE") == "Uk Dance"
  {
    TitleDanceExample();
    assert TitleFrom(" DANCE", true) == " Dance";
    assert TitleFrom("K DANCE", true) == "k Dance";
  }

  lemma TitleDanceExample()
    ensures TitleFrom("DANCE", false) == "Dance"
  {
    assert TitleFrom("E", true) == "e";
    assert TitleFrom("CE", true) == "ce";
    assert TitleFrom("NCE", true) == "nce";
    assert TitleFrom("ANCE", true) == "ance";
  }
}
