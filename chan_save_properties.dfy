/** Properties of the chan save model: the slash normalisation, the extension choice, the
    link patterns, what `run` saves and announces, and the module's place in dispatch. */
module ChanSaveProperties {
  import opened Python
  import opened Text
  import opened BotClient
  import opened ChanSaveModule
  import ClientProperties

  // ---------------------------------------------------------------------------------------
  // Names and paths

  /** A slash is appended exactly when the string does not end with one, so normalising
      twice changes nothing. */
  lemma WithSlashMeaning(s: string)
    ensures WithSlash(s) == s <==> EndsWith(s, "/")
    ensures !EndsWith(s, "/") ==> WithSlash(s) == s + "/"
    ensures WithSlash(WithSlash(s)) == WithSlash(s)
  {
  }

  /** Lower-casing works character by character. */
  lemma LowerStrAppend(a: string, b: string)
    ensures LowerStr(a + b) == LowerStr(a) + LowerStr(b)
  {
  }

  /** The extensions to save, each written in lower case. */
  lemma ExtensionsLowerCase()
    ensures forall e :: e in FileExtensionsToSave ==> LowerStr(e) == e
  {
    assert LowerStr("jpg") == "jpg";
    assert LowerStr("png") == "png";
    assert LowerStr("bmp") == "bmp";
    assert LowerStr("gif") == "gif";
    assert LowerStr("jpeg") == "jpeg";
    assert LowerStr("webm") == "webm";
    assert LowerStr("pdf") == "pdf";
  }

  /** A link has an extension when its lower-cased form ends with a dot and the
      extension. */
  lemma HasExtensionOf(stem: string, ending: string, extension: string)
    requires LowerStr(extension) == extension
    ensures HasExtension(stem + ending, extension) <==> EndsWith(LowerStr(stem) + LowerStr(ending), "." + extension)
  {
    LowerStrAppend(stem, ending);
  }

  /** The extension is found whatever its case: a link ending in `.JPG` is saved as a
      `jpg` file. */
  lemma UpperCaseExtension(stem: string)
    ensures FileExtension(stem + ".JPG") == Some("jpg")
  {
    ExtensionsLowerCase();
    HasExtensionOf(stem, ".JPG", "jpg");
    assert LowerStr(".JPG") == ".jpg";
    var lowered := LowerStr(stem) + ".jpg";
    assert lowered[|lowered| - 4..] == ".jpg";
  }

  /** A link ending in `.jpeg` is not taken for a `jpg`: the extensions are compared
      after the dot. */
  lemma JpegExtension(stem: string)
    ensures FileExtension(stem + ".jpeg") == Some("jpeg")
  {
    var link := stem + ".jpeg";
    JpegEndings(stem);
    var r := FirstExtension(link, FileExtensionsToSave);
    assert r.Some? by {
      assert HasExtension(link, FileExtensionsToSave[4]);
    }
    assert r.value == 4 by {
      assert r.value !in {0, 1, 2, 3};
      assert !(r.value > 4);
    }
  }

  /** The endings a `.jpeg` link has and has not. */
  lemma JpegEndings(stem: string)
    ensures var link := stem + ".jpeg";
      && HasExtension(link, FileExtensionsToSave[4])
      && !HasExtension(link, FileExtensionsToSave[0]) && !HasExtension(link, FileExtensionsToSave[1])
      && !HasExtension(link, FileExtensionsToSave[2]) && !HasExtension(link, FileExtensionsToSave[3])
  {
    ExtensionsLowerCase();
    LowerStrAppend(stem, ".jpeg");
    assert LowerStr(".jpeg") == ".jpeg";
    var lowered := LowerStr(stem) + ".jpeg";
    assert lowered[|lowered| - 5..] == ".jpeg";
    assert lowered[|lowered| - 4] == 'j';
    assert FileExtensionsToSave[4] == "jpeg" && LowerStr("jpeg") == "jpeg";
    forall k | 0 <= k < 4
      ensures !HasExtension(stem + ".jpeg", FileExtensionsToSave[k])
    {
      var x := FileExtensionsToSave[k];
      assert |x| == 3 && LowerStr(x) == x;
      assert ("." + x)[0] == '.';
    }
  }

  // ---------------------------------------------------------------------------------------
  // Recognising a link

  /** `regex.search` finds the pattern exactly when it matches at some position. */
  lemma {:induction false} SearchMeaning(text: string, pattern: string, ignoreCase: bool)
    ensures Search(text, pattern, ignoreCase) <==>
      exists i :: 0 <= i <= |text| && MatchesAtStart(text[i..], pattern, ignoreCase)
    decreases |text|
  {
    assert text[0..] == text;
    if text != [] {
      SearchMeaning(text[1..], pattern, ignoreCase);
      if Search(text[1..], pattern, ignoreCase) {
        var i :| 0 <= i <= |text[1..]| && MatchesAtStart(text[1..][i..], pattern, ignoreCase);
        assert text[i + 1..] == text[1..][i..];
      }
      if exists i :: 0 <= i <= |text| && MatchesAtStart(text[i..], pattern, ignoreCase) {
        var i :| 0 <= i <= |text| && MatchesAtStart(text[i..], pattern, ignoreCase);
        if i > 0 {
          assert text[1..][i - 1..] == text[i..];
        }
      }
    } else {
      assert text[0..] == text;
    }
  }

  /** A link naming `i.4cdn.org`, in any case, is a link to save from. */
  lemma ImageHostLink(before: string, after: string)
    ensures IsChanLink(before + "I.4CDN.ORG" + after)
  {
    var link := before + "I.4CDN.ORG" + after;
    var pattern := "i.4cdn.org";
    assert link[|before|..] == "I.4CDN.ORG" + after;
    assert MatchesAtStart(link[|before|..], pattern, true) by {
      var t := link[|before|..];
      forall j | 0 <= j < |pattern|
        ensures PatternCharMatches(t[j], pattern[j], true)
      {
        assert t[j] == "I.4CDN.ORG"[j];
      }
    }
    SearchMeaning(link, pattern, true);
  }

  // ---------------------------------------------------------------------------------------
  // What `run` does

  /** A disabled module saves nothing and says nothing. */
  lemma {:induction false} DisabledSavesNothing(saveDirpath: Option<string>, url: Option<string>,
                                                digest: string -> string, existing: set<string>, links: seq<string>)
    ensures RunEffects(true, saveDirpath, url, digest, existing, links) == Effects(existing, [], [])
    decreases |links|
  {
    if links != [] {
      DisabledSavesNothing(saveDirpath, url, digest, existing, links[..|links| - 1]);
    }
  }

  /** The paths saved: none existed before, none is saved twice, and the paths that exist
      afterwards are those of before and those saved. */
  lemma {:induction false} SavesAreNew(disabled: bool, saveDirpath: Option<string>, url: Option<string>,
                                       digest: string -> string, existing: set<string>, links: seq<string>)
    requires !disabled ==> saveDirpath.Some?
    ensures var e := RunEffects(disabled, saveDirpath, url, digest, existing, links);
      && (forall k :: 0 <= k < |e.saves| ==> e.saves[k].filepath !in existing)
      && (forall j, k :: 0 <= j < k < |e.saves| ==> e.saves[j].filepath != e.saves[k].filepath)
      && (forall p :: p in e.existing <==> p in existing || exists k :: 0 <= k < |e.saves| && e.saves[k].filepath == p)
    decreases |links|
  {
    if links != [] {
      var init := links[..|links| - 1];
      SavesAreNew(disabled, saveDirpath, url, digest, existing, init);
      var before := RunEffects(disabled, saveDirpath, url, digest, existing, init);
      var e := RunEffects(disabled, saveDirpath, url, digest, existing, links);
      if e != before {
        var last := e.saves[|e.saves| - 1];
        assert e.saves == before.saves + [last];
        assert e.existing == before.existing + {last.filepath};
        assert last.filepath !in before.existing;
        forall p | p in e.existing
          ensures p in existing || exists k :: 0 <= k < |e.saves| && e.saves[k].filepath == p
        {
          if p !in existing && p != last.filepath {
            var k :| 0 <= k < |before.saves| && before.saves[k].filepath == p;
            assert e.saves[k] == before.saves[k];
          }
        }
        forall p | p !in existing && (exists k :: 0 <= k < |e.saves| && e.saves[k].filepath == p)
          ensures p in e.existing
        {
          var k :| 0 <= k < |e.saves| && e.saves[k].filepath == p;
          if k < |before.saves| {
            assert before.saves[k] == e.saves[k];
          }
        }
      }
    }
  }

  /** The replies: none without an access URL, one per saved file with it. */
  lemma {:induction false} RepliesFollowSaves(disabled: bool, saveDirpath: Option<string>, url: Option<string>,
                                              digest: string -> string, existing: set<string>, links: seq<string>)
    requires !disabled ==> saveDirpath.Some?
    ensures var e := RunEffects(disabled, saveDirpath, url, digest, existing, links);
      (url.None? ==> e.replies == []) && (url.Some? ==> |e.replies| == |e.saves|)
    decreases |links|
  {
    if links != [] {
      RepliesFollowSaves(disabled, saveDirpath, url, digest, existing, links[..|links| - 1]);
    }
  }

  /** A download `run` may make: from a non-empty 4chan link of the message, with an
      extension to save, to the save directory under the link's digest. */
  predicate Qualifies(saveDirpath: string, digest: string -> string, links: seq<string>, s: Saved) {
    && s.link in links && s.link != [] && IsChanLink(s.link)
    && FileExtension(s.link).Some?
    && s.filepath == saveDirpath + digest(s.link) + "." + FileExtension(s.link).value
  }

  /** Every file saved is one the module may save, by an enabled module. */
  lemma {:induction false} SavesQualify(disabled: bool, saveDirpath: Option<string>, url: Option<string>,
                                        digest: string -> string, existing: set<string>, links: seq<string>)
    requires !disabled ==> saveDirpath.Some?
    ensures var e := RunEffects(disabled, saveDirpath, url, digest, existing, links);
      e.saves != [] ==> !disabled && forall k :: 0 <= k < |e.saves| ==> Qualifies(saveDirpath.value, digest, links, e.saves[k])
    decreases |links|
  {
    if links != [] {
      var init, link := links[..|links| - 1], links[|links| - 1];
      SavesQualify(disabled, saveDirpath, url, digest, existing, init);
      var before := RunEffects(disabled, saveDirpath, url, digest, existing, init);
      var e := Step(disabled, saveDirpath, url, digest, before, link);
      StepSaves(disabled, saveDirpath, url, digest, before, link);
      assert links == init + [link];
      forall k | 0 <= k < |e.saves|
        ensures Qualifies(saveDirpath.value, digest, links, e.saves[k])
      {
        if k < |before.saves| {
          assert e.saves[k] == before.saves[k];
          QualifiesLonger(saveDirpath.value, digest, init, link, e.saves[k]);
        }
      }
    }
  }

  /** A link the module may save from: non-empty, a 4chan link, with an extension to save. */
  predicate Eligible(link: string) {
    link != [] && IsChanLink(link) && FileExtension(link).Some?
  }

  /** Where an eligible link is saved: the save directory, the link's digest and its
      extension. */
  function TargetPath(saveDirpath: string, digest: string -> string, link: string): string
    requires Eligible(link)
  {
    saveDirpath + digest(link) + "." + FileExtension(link).value
  }

  /** The converse of `SavesQualify`: an enabled module saves every eligible link of the
      message whose path neither existed before nor is the path of an earlier eligible link. */
  lemma SavesEveryNewLink(saveDirpath: string, url: Option<string>, digest: string -> string,
                          existing: set<string>, links: seq<string>, i: nat)
    requires i < |links| && Eligible(links[i])
    requires TargetPath(saveDirpath, digest, links[i]) !in existing
    requires forall j :: 0 <= j < i && Eligible(links[j]) ==>
      TargetPath(saveDirpath, digest, links[j]) != TargetPath(saveDirpath, digest, links[i])
    ensures var e := RunEffects(false, Some(saveDirpath), url, digest, existing, links);
      exists k :: 0 <= k < |e.saves| && e.saves[k] == Saved(links[i], TargetPath(saveDirpath, digest, links[i]))
  {
    var link, path := links[i], TargetPath(saveDirpath, digest, links[i]);
    var before := RunEffects(false, Some(saveDirpath), url, digest, existing, links[..i]);
    NotYetSaved(saveDirpath, url, digest, existing, links, i);
    RunEffectsAt(false, Some(saveDirpath), url, digest, existing, links, i);
    StepSavesNew(saveDirpath, url, digest, before, link);
    SavesPrefix(false, Some(saveDirpath), url, digest, existing, links, i + 1);
    var after := RunEffects(false, Some(saveDirpath), url, digest, existing, links[..i + 1]);
    var e := RunEffects(false, Some(saveDirpath), url, digest, existing, links);
    assert e.saves[|before.saves|] == after.saves[|before.saves|];
  }

  /** The effects after `i + 1` links are one step past those after `i`. */
  lemma RunEffectsAt(disabled: bool, saveDirpath: Option<string>, url: Option<string>, digest: string -> string,
                     existing: set<string>, links: seq<string>, i: nat)
    requires !disabled ==> saveDirpath.Some?
    requires i < |links|
    ensures RunEffects(disabled, saveDirpath, url, digest, existing, links[..i + 1]) ==
            Step(disabled, saveDirpath, url, digest, RunEffects(disabled, saveDirpath, url, digest, existing, links[..i]), links[i])
  {
    assert links[..i + 1][..i] == links[..i];
  }

  /** An eligible link whose path does not exist yet is saved by an enabled module. */
  lemma StepSavesNew(saveDirpath: string, url: Option<string>, digest: string -> string, e: Effects, link: string)
    requires Eligible(link) && TargetPath(saveDirpath, digest, link) !in e.existing
    ensures Step(false, Some(saveDirpath), url, digest, e, link).saves == e.saves + [Saved(link, TargetPath(saveDirpath, digest, link))]
  {
    var extension := FileExtension(link).value;
    var r := FilenameAndPath(saveDirpath, digest(link), extension);
    assert r.1 == saveDirpath + (digest(link) + "." + extension);
    assert saveDirpath + (digest(link) + "." + extension) == saveDirpath + digest(link) + "." + extension;
  }

  /** Before the module reaches such a link, its path does not exist. */
  lemma NotYetSaved(saveDirpath: string, url: Option<string>, digest: string -> string,
                    existing: set<string>, links: seq<string>, i: nat)
    requires i < |links| && Eligible(links[i])
    requires TargetPath(saveDirpath, digest, links[i]) !in existing
    requires forall j :: 0 <= j < i && Eligible(links[j]) ==>
      TargetPath(saveDirpath, digest, links[j]) != TargetPath(saveDirpath, digest, links[i])
    ensures TargetPath(saveDirpath, digest, links[i]) !in RunEffects(false, Some(saveDirpath), url, digest, existing, links[..i]).existing
  {
    var init, path := links[..i], TargetPath(saveDirpath, digest, links[i]);
    var before := RunEffects(false, Some(saveDirpath), url, digest, existing, init);
    SavesAreNew(false, Some(saveDirpath), url, digest, existing, init);
    SavesQualify(false, Some(saveDirpath), url, digest, existing, init);
  }

  /** The downloads for a prefix of the links come first among those for all of them. */
  lemma {:induction false} SavesPrefix(disabled: bool, saveDirpath: Option<string>, url: Option<string>,
                                       digest: string -> string, existing: set<string>, links: seq<string>, n: nat)
    requires !disabled ==> saveDirpath.Some?
    requires n <= |links|
    ensures RunEffects(disabled, saveDirpath, url, digest, existing, links[..n]).saves <=
            RunEffects(disabled, saveDirpath, url, digest, existing, links).saves
    decreases |links|
  {
    if n < |links| {
      var init := links[..|links| - 1];
      assert init[..n] == links[..n];
      SavesPrefix(disabled, saveDirpath, url, digest, existing, init, n);
      StepSaves(disabled, saveDirpath, url, digest,
                RunEffects(disabled, saveDirpath, url, digest, existing, init), links[|links| - 1]);
    } else {
      assert links[..n] == links;
    }
  }

  /** One link saves nothing, or saves that link, by an enabled module, to its path. */
  lemma StepSaves(disabled: bool, saveDirpath: Option<string>, url: Option<string>, digest: string -> string,
                  e: Effects, link: string)
    requires !disabled ==> saveDirpath.Some?
    ensures var after := Step(disabled, saveDirpath, url, digest, e, link);
      || after.saves == e.saves
      || (&& !disabled && link != [] && IsChanLink(link) && FileExtension(link).Some?
          && after.saves == e.saves + [Saved(link, saveDirpath.value + digest(link) + "." + FileExtension(link).value)])
  {
    if !(link == [] || disabled || !IsChanLink(link)) && FileExtension(link).Some? {
      var extension := FileExtension(link).value;
      assert saveDirpath.value + (digest(link) + "." + extension) == saveDirpath.value + digest(link) + "." + extension;
    }
  }

  /** A download that qualifies for some links qualifies for more. */
  lemma QualifiesLonger(saveDirpath: string, digest: string -> string, init: seq<string>, link: string, s: Saved)
    requires Qualifies(saveDirpath, digest, init, s)
    ensures Qualifies(saveDirpath, digest, init + [link], s)
  {
  }

  // ---------------------------------------------------------------------------------------
  // The module in dispatch

  /** The chan save module, as `_load_modules` would record it. */
  const ChanSaveLoaded: LoadedModule := LoadedModule("ChanSave", AlwaysRun)

  /** Wherever it is loaded, the chan save module runs on every message, and since its
      `run` never claims a message, the other modules run as they would without it. */
  lemma ChanSaveInDispatch(pre: seq<LoadedModule>, post: seq<LoadedModule>,
                           claims: nat -> bool, shifted: nat -> bool, k: nat)
    requires !claims(|pre|)
    requires ClientProperties.Without(claims, |pre|, shifted)
    requires k < |pre| + |post|
    ensures Dispatch(pre + [ChanSaveLoaded] + post, claims)[|pre|]
    ensures k < |pre| ==> Dispatch(pre + [ChanSaveLoaded] + post, claims)[k] == Dispatch(pre + post, shifted)[k]
    ensures k >= |pre| ==> Dispatch(pre + [ChanSaveLoaded] + post, claims)[k + 1] == Dispatch(pre + post, shifted)[k]
  {
    var modules := pre + [ChanSaveLoaded] + post;
    assert modules[|pre|] == ChanSaveLoaded;
    ClientProperties.DispatchMeaning(modules, claims, |pre|);
    ClientProperties.NonClaimingModuleTransparent(pre, ChanSaveLoaded, post, claims, shifted, k);
  }
}
