/** The pure parts of the font manager: which scripts a text needs (in the order they
    first appear), the recommended families per script, the built-in preference list
    per target platform, and the preference list the manager keeps. */
module Fonts {

  import opened Wrappers

  datatype LanguageScript = Latin | CJK | Arabic | Cyrillic | Thai | Devanagari

  /** The platform the program was compiled for (`cfg(target_os)`). */
  datatype TargetOs = Windows | MacOs | Linux | OtherOs

  /** The script a character is counted under, if any. Thai and Devanagari have no ranges. */
  function Classify(c: char): (r: Option<LanguageScript>)
    ensures r != Some(Thai) && r != Some(Devanagari)
    ensures r == Some(Latin) <==> ('A' <= c <= 'Z' || 'a' <= c <= 'z' || '0' <= c <= '9')
  {
    if 'A' <= c <= 'Z' || 'a' <= c <= 'z' || '0' <= c <= '9' then Some(Latin)
    else if || '\U{4E00}' <= c <= '\U{9FFF}'
            || '\U{3400}' <= c <= '\U{4DBF}'
            || '\U{20000}' <= c <= '\U{2A6DF}'
            || '\U{3040}' <= c <= '\U{309F}'
            || '\U{30A0}' <= c <= '\U{30FF}'
            || '\U{AC00}' <= c <= '\U{D7AF}' then Some(CJK)
    else if '\U{0600}' <= c <= '\U{06FF}' || '\U{0750}' <= c <= '\U{077F}' then Some(Arabic)
    else if '\U{0400}' <= c <= '\U{04FF}' then Some(Cyrillic)
    else None
  }

  /** Scripts of the classified characters of `s`, each recorded when it first occurs. */
  function Scan(s: string): seq<LanguageScript>
  {
    if s == [] then []
    else
      var seen := Scan(s[..|s| - 1]);
      match Classify(s[|s| - 1])
      case None => seen
      case Some(script) => if script in seen then seen else seen + [script]
  }

  /** `detect_script`'s result: the scan, or `[Latin]` when nothing was classified. */
  function DetectedScripts(text: string): seq<LanguageScript>
  {
    var seen := Scan(text);
    if seen == [] then [Latin] else seen
  }

  /** `detect_script`: one pass over the characters, a flag per script. */
  method DetectScript(text: string) returns (scripts: seq<LanguageScript>)
    ensures scripts == DetectedScripts(text)
  {
    scripts := [];
    var hasLatin, hasCjk, hasArabic, hasCyrillic := false, false, false, false;
    var i := 0;
    while i < |text|
      invariant 0 <= i <= |text|
      invariant scripts == Scan(text[..i])
      invariant hasLatin <==> Latin in scripts
      invariant hasCjk <==> CJK in scripts
      invariant hasArabic <==> Arabic in scripts
      invariant hasCyrillic <==> Cyrillic in scripts
    {
      assert text[..i + 1][..i] == text[..i];
      match Classify(text[i]) {
        case Some(Latin) =>
          if !hasLatin {
            scripts := scripts + [Latin];
            hasLatin := true;
          }
        case Some(CJK) =>
          if !hasCjk {
            scripts := scripts + [CJK];
            hasCjk := true;
          }
        case Some(Arabic) =>
          if !hasArabic {
            scripts := scripts + [Arabic];
            hasArabic := true;
          }
        case Some(Cyrillic) =>
          if !hasCyrillic {
            scripts := scripts + [Cyrillic];
            hasCyrillic := true;
          }
        case _ =>
      }
      i := i + 1;
    }
    assert text[..i] == text;
    if scripts == [] {
      scripts := [Latin];
    }
  }

  predicate NoDuplicates(s: seq<LanguageScript>)
  {
    forall i, j :: 0 <= i < j < |s| ==> s[i] != s[j]
  }

  /** Character `q` of `s` is classified under `script`. */
  predicate OccursAt(s: string, script: LanguageScript, q: int)
  {
    0 <= q < |s| && Classify(s[q]) == Some(script)
  }

  /** A script is recorded exactly when one of its characters occurs. */
  lemma {:induction false} ScanMembers(s: string, script: LanguageScript)
    ensures script in Scan(s) <==> exists q :: OccursAt(s, script, q)
  {
    if s != [] {
      var p := s[..|s| - 1];
      ScanMembers(p, script);
      if q :| OccursAt(p, script, q) { assert OccursAt(s, script, q); }
      if q :| OccursAt(s, script, q) {
        if q < |s| - 1 { assert OccursAt(p, script, q); }
      }
      if Classify(s[|s| - 1]) == Some(script) {
        assert OccursAt(s, script, |s| - 1);
      }
    }
  }

  /** No script is recorded twice. */
  lemma {:induction false} ScanNoDuplicates(s: string)
    ensures NoDuplicates(Scan(s))
  {
    if s != [] {
      ScanNoDuplicates(s[..|s| - 1]);
    }
  }

  /** Scripts are listed in the order of their first occurrence: every character of a
      later-listed script comes after some character of each earlier-listed one. */
  lemma {:induction false} ScanOrder(s: string, i: nat, j: nat, q: nat)
    requires i < j < |Scan(s)| && OccursAt(s, Scan(s)[j], q)
    ensures exists k :: k < q && OccursAt(s, Scan(s)[i], k)
    decreases |s|
  {
    var p := s[..|s| - 1];
    var seen := Scan(p);
    var r := Scan(s);
    var last := Classify(s[|s| - 1]);
    assert r == seen || (last.Some? && last.value !in seen && r == seen + [last.value]);
    assert i < |seen| && r[i] == seen[i];
    ScanMembers(p, r[i]);
    var k :| OccursAt(p, r[i], k);
    assert OccursAt(s, r[i], k);
    if q < |s| - 1 {
      assert OccursAt(p, r[j], q);
      if j < |seen| {
        assert r[j] == seen[j];
        ScanOrder(p, i, j, q);
        var k' :| k' < q && OccursAt(p, r[i], k');
        assert OccursAt(s, r[i], k');
      } else {
        ScanMembers(p, r[j]);
      }
    }
  }

  /** What `detect_script` promises: a non-empty list without repeats, never Thai or
      Devanagari; CJK, Arabic and Cyrillic appear exactly when the text has one of their
      characters, and Latin exactly when it has an ASCII letter or digit or nothing at
      all is classified. */
  lemma DetectedScriptsSpec(text: string)
    ensures var r := DetectedScripts(text);
      && r != [] && NoDuplicates(r) && Thai !in r && Devanagari !in r
      && (forall script :: script != Latin ==> (script in r <==> exists q :: OccursAt(text, script, q)))
      && (Latin in r <==> (exists q :: OccursAt(text, Latin, q)) || forall q :: 0 <= q < |text| ==> Classify(text[q]).None?)
  {
    ScanNoDuplicates(text);
    var seen := Scan(text);
    forall script ensures script in seen <==> exists q :: OccursAt(text, script, q) {
      ScanMembers(text, script);
    }
    if seen != [] {
      ScanMembers(text, seen[0]);
      var q :| OccursAt(text, seen[0], q);
      assert Classify(text[q]).Some?;
    } else {
      forall q | 0 <= q < |text| ensures Classify(text[q]).None? {
        if Classify(text[q]).Some? {
          ScanMembers(text, Classify(text[q]).value);
          assert OccursAt(text, Classify(text[q]).value, q);
        }
      }
    }
  }

  /** `get_fonts_for_script`. */
  function FontsForScript(script: LanguageScript): (r: seq<string>)
    ensures r != []
  {
    match script
    case CJK => ["Noto Sans CJK SC", "Microsoft YaHei", "PingFang SC", "Source Han Sans SC", "WenQuanYi Micro Hei"]
    case Arabic => ["Noto Sans Arabic", "Arial Unicode MS"]
    case Cyrillic => ["Noto Sans", "DejaVu Sans", "Liberation Sans"]
    case _ => ["Segoe UI", "SF Pro Display", "DejaVu Sans", "Liberation Sans"]
  }

  /** Latin, Thai and Devanagari share one list; the other three each have their own. */
  lemma FontsForScriptShared()
    ensures FontsForScript(Latin) == FontsForScript(Thai) == FontsForScript(Devanagari)
    ensures FontsForScript(CJK) != FontsForScript(Latin) && FontsForScript(Arabic) != FontsForScript(Latin)
    ensures FontsForScript(Cyrillic) != FontsForScript(Latin)
  {
  }

  /** The fallback families every platform's list ends with. */
  const COMMON_FALLBACK: seq<string> := ["Arial", "Helvetica", "sans-serif"]

  function PlatformFonts(os: TargetOs): seq<string>
  {
    match os
    case Windows => ["Microsoft YaHei", "SimSun", "SimHei", "Malgun Gothic", "Yu Gothic", "Segoe UI", "Arial Unicode MS"]
    case MacOs => ["PingFang SC", "PingFang TC", "Hiragino Sans GB", "Apple SD Gothic Neo",
                   "Hiragino Kaku Gothic ProN", "SF Pro Display", "Arial Unicode MS"]
    case Linux => ["Noto Sans CJK SC", "Noto Sans CJK TC", "Noto Sans CJK JP", "Noto Sans CJK KR",
                   "Source Han Sans SC", "WenQuanYi Micro Hei", "Droid Sans Fallback", "DejaVu Sans", "Liberation Sans"]
    case OtherOs => []
  }

  /** `get_default_font_preferences`: the platform's families, then the common fallback. */
  function DefaultFontPreferences(os: TargetOs): (r: seq<string>)
    ensures |r| >= |COMMON_FALLBACK| && r[|r| - |COMMON_FALLBACK|..] == COMMON_FALLBACK
    ensures r[..|r| - |COMMON_FALLBACK|] == PlatformFonts(os)
    ensures os == OtherOs ==> r == COMMON_FALLBACK
  {
    PlatformFonts(os) + COMMON_FALLBACK
  }

  /** The preference list the manager keeps (system font source and cache are not modelled). */
  class FontManager {

    var preferredFonts: seq<string>

    /** `FontManager::new`. */
    constructor (os: TargetOs)
      ensures preferredFonts == DefaultFontPreferences(os)
    {
      preferredFonts := DefaultFontPreferences(os);
    }

    method SetPreferredFonts(fonts: seq<string>)
      modifies this
      ensures preferredFonts == fonts
    {
      preferredFonts := fonts;
    }

    method GetPreferredFonts() returns (fonts: seq<string>)
      ensures fonts == preferredFonts
    {
      fonts := preferredFonts;
    }
  }
}
