/**
 * The two string functions of the amalgamation script: the collision suffix
 * taken from a source file's stem, and the style key under which a source
 * font is merged.
 */
module Naming {
  import opened Wrappers

  /** Python's `sub in s` on strings, computed by trying each start position. */
  predicate Contains(s: string, sub: string)
    decreases |s|
  {
    IsPrefix(sub, s) || (|s| > 0 && Contains(s[1..], sub))
  }

  /** Reference meaning of substring containment: some slice of `s` is `sub`. */
  ghost predicate Occurs(s: string, sub: string)
  {
    exists i, j :: 0 <= i <= j <= |s| && s[i..j] == sub
  }

  /** The scanning test decides exactly the reference notion of containment. */
  lemma {:induction false} ContainsIffOccurs(s: string, sub: string)
    ensures Contains(s, sub) <==> Occurs(s, sub)
    decreases |s|
  {
    if IsPrefix(sub, s) {
      assert s[0..|sub|] == sub;
    }
    if |s| == 0 {
      if Occurs(s, sub) {
        var i, j :| 0 <= i <= j <= |s| && s[i..j] == sub;
        assert sub == [];
        assert IsPrefix(sub, s);
      }
    } else {
      ContainsIffOccurs(s[1..], sub);
      if Occurs(s[1..], sub) {
        var i, j :| 0 <= i <= j <= |s[1..]| && s[1..][i..j] == sub;
        assert s[i + 1..j + 1] == sub;
      }
      if Occurs(s, sub) {
        var i, j :| 0 <= i <= j <= |s| && s[i..j] == sub;
        if i == 0 {
          assert s[..|sub|] == s[i..j];
        } else {
          assert s[1..][i - 1..j - 1] == sub;
        }
      }
    }
  }

  /**
   * The collision suffix for a source whose file stem is `stem`: the tag of
   * the first of "Display", "Mono", "Serif", "Sans" contained in the stem,
   * tested in that order, or no suffix when none is.
   */
  function SuffixFromName(stem: string): Option<string>
  {
    if Contains(stem, "Display") then Some("display")
    else if Contains(stem, "Mono") then Some("mono")
    else if Contains(stem, "Serif") then Some("serif")
    else if Contains(stem, "Sans") then Some("sans")
    else None
  }

  /**
   * The suffix is decided by the first of the four family words occurring in
   * the stem, in priority order, and is absent exactly when none occurs.
   */
  lemma SuffixFromNamePriority(stem: string)
    ensures SuffixFromName(stem) == Some("display") <==> Occurs(stem, "Display")
    ensures SuffixFromName(stem) == Some("mono") <==> !Occurs(stem, "Display") && Occurs(stem, "Mono")
    ensures SuffixFromName(stem) == Some("serif") <==>
      !Occurs(stem, "Display") && !Occurs(stem, "Mono") && Occurs(stem, "Serif")
    ensures SuffixFromName(stem) == Some("sans") <==>
      !Occurs(stem, "Display") && !Occurs(stem, "Mono") && !Occurs(stem, "Serif") && Occurs(stem, "Sans")
    ensures SuffixFromName(stem) == None <==>
      !Occurs(stem, "Display") && !Occurs(stem, "Mono") && !Occurs(stem, "Serif") && !Occurs(stem, "Sans")
  {
    ContainsIffOccurs(stem, "Display");
    ContainsIffOccurs(stem, "Mono");
    ContainsIffOccurs(stem, "Serif");
    ContainsIffOccurs(stem, "Sans");
  }

  /** A stem naming both a display and a serif family resolves to "display". */
  lemma DisplayBeatsSerif(stem: string)
    requires Occurs(stem, "Display") && Occurs(stem, "Serif")
    ensures SuffixFromName(stem) == Some("display")
  {
    SuffixFromNamePriority(stem);
  }

  /** Python's `s.replace(" ", "")`: drops every U+0020 space, keeps the rest in order. */
  function RemoveSpaces(s: string): (r: string)
    ensures ' ' !in r
    ensures |r| <= |s|
  {
    if s == [] then []
    else (if s[0] == ' ' then "" else [s[0]]) + RemoveSpaces(s[1..])
  }

  /**
   * Space removal deletes the spaces and nothing else: every other character
   * is kept as many times as it occurs (the order is kept by `RemoveSpacesConcat`).
   */
  lemma {:induction false} RemoveSpacesDeletesOnlySpaces(s: string)
    ensures multiset(RemoveSpaces(s)) == multiset(s)[' ' := 0]
  {
    if s != [] {
      assert s == [s[0]] + s[1..];
      RemoveSpacesDeletesOnlySpaces(s[1..]);
    }
  }

  /** Space removal acts character by character, so it distributes over concatenation. */
  lemma {:induction false} RemoveSpacesConcat(a: string, b: string)
    ensures RemoveSpaces(a + b) == RemoveSpaces(a) + RemoveSpaces(b)
  {
    if a == [] {
      assert a + b == b;
    } else {
      assert (a + b)[0] == a[0];
      assert (a + b)[1..] == a[1..] + b;
      RemoveSpacesConcat(a[1..], b);
    }
  }

  /** A string is left unchanged by space removal exactly when it holds no space. */
  lemma {:induction false} RemoveSpacesFixed(s: string)
    ensures RemoveSpaces(s) == s <==> ' ' !in s
  {
    if s != [] {
      RemoveSpacesFixed(s[1..]);
    }
  }

  /** Why resolving a style key can fail: the font carries no style name. */
  datatype StyleError = MissingStyleName

  /**
   * The style key of a source font: its style name with spaces removed,
   * the spelling "Semibold" corrected to "SemiBold"; an error when the font
   * has no style name.
   */
  function AmalgamatedName(styleName: Option<string>): (r: Result<string, StyleError>)
    ensures r.Err? <==> styleName.None?
    ensures r.Ok? ==> ' ' !in r.value && r.value != "Semibold"
    ensures r.Ok? && RemoveSpaces(styleName.value) != "Semibold" ==>
      r.value == RemoveSpaces(styleName.value)
    ensures r.Ok? && RemoveSpaces(styleName.value) == "Semibold" ==> r.value == "SemiBold"
  {
    match styleName
    case None => Err(MissingStyleName)
    case Some(s) =>
      var name := RemoveSpaces(s);
      if name == "Semibold" then Ok("SemiBold") else Ok(name)
  }

  /**
   * A style key is its own key: resolving it again gives it back, and the
   * space removal applied when the output file is named leaves it unchanged.
   */
  lemma AmalgamatedNameIdempotent(styleName: Option<string>, key: string)
    requires AmalgamatedName(styleName) == Ok(key)
    ensures AmalgamatedName(Some(key)) == Ok(key)
    ensures RemoveSpaces(key) == key
  {
    RemoveSpacesFixed(key);
  }

  /**
   * The spelling fix applies only when the whole stripped name is "Semibold":
   * a style name that strips to "Semibold" followed by more text keeps the
   * lower-case spelling.
   */
  lemma {:induction false} SemiboldFixIsWholeName(a: string, b: string)
    requires RemoveSpaces(a) == "Semibold"
    requires RemoveSpaces(b) != ""
    ensures AmalgamatedName(Some(a + b)) == Ok("Semibold" + RemoveSpaces(b))
  {
    RemoveSpacesConcat(a, b);
    assert |RemoveSpaces(a + b)| > |"Semibold"|;
  }

  /** Style names that differ only by a space resolve to the same key (so "Semi Bold" joins "SemiBold"). */
  lemma {:induction false} SpaceDoesNotChangeKey(a: string, b: string)
    ensures AmalgamatedName(Some(a + " " + b)) == AmalgamatedName(Some(a + b))
  {
    RemoveSpacesConcat(a + " ", b);
    RemoveSpacesConcat(a, " ");
    RemoveSpacesConcat(a, b);
    assert RemoveSpaces(" ") == "";
    assert RemoveSpaces(a) + "" == RemoveSpaces(a);
  }
}
