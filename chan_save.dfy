/** chaanbot/modules/chan_save.py: the module that keeps a copy of the media files behind
    4chan links posted in a room. It never answers a command: it runs on every message and
    never claims one.

    The regular expressions that find the links in a message, the SHA-1 digest of a link,
    the download and the file system are outside the model. The links of a message are a
    parameter, the digest is a function `digest` from a link to its hexadecimal SHA-1, the
    paths that exist are a set `existing`, and each download and each reply is recorded. */
module ChanSaveModule {
  import opened Python
  import opened Text
  import opened BotClient

  /** `file_extensions_to_save` */
  const FileExtensionsToSave: seq<string> := ["jpg", "png", "bmp", "gif", "jpeg", "webm", "pdf"]

  /** The class attribute `always_run`. */
  const AlwaysRun: bool := true

  // ---------------------------------------------------------------------------------------
  // Recognising a link

  /** One character of a pattern made of literal characters and `.`: `.` matches any
      character but a newline; with `ignoreCase` letters match either case. */
  predicate PatternCharMatches(c: char, p: char, ignoreCase: bool) {
    if p == '.' then c != '\n'
    else if ignoreCase then Lower(c) == Lower(p)
    else c == p
  }

  /** The pattern matches at the start of `text`. */
  predicate MatchesAtStart(text: string, pattern: string, ignoreCase: bool) {
    |pattern| <= |text| && forall j :: 0 <= j < |pattern| ==> PatternCharMatches(text[j], pattern[j], ignoreCase)
  }

  /** `regex.search(text)` for a pattern of literal characters and `.`: a match starts at
      some position. */
  predicate Search(text: string, pattern: string, ignoreCase: bool)
    decreases |text|
  {
    MatchesAtStart(text, pattern, ignoreCase) || (text != [] && Search(text[1..], pattern, ignoreCase))
  }

  /** Some pattern of `url_regexes` is found in the link: `4chan.org`, or `i.4cdn.org` in
      either case. */
  predicate IsChanLink(link: string) {
    Search(link, "4chan.org", false) || Search(link, "i.4cdn.org", true)
  }

  // ---------------------------------------------------------------------------------------
  // Names and paths

  /** `s if s.endswith("/") else s + "/"` */
  function WithSlash(s: string): (r: string)
    ensures EndsWith(r, "/")
    ensures s <= r && |r| <= |s| + 1
  {
    if EndsWith(s, "/") then s else s + "/"
  }

  /** The link ends with `.` and the extension, ignoring case. */
  predicate HasExtension(link: string, extension: string) {
    EndsWith(LowerStr(link), "." + LowerStr(extension))
  }

  /** The position of the first of `extensions` that the link has. */
  function FirstExtension(link: string, extensions: seq<string>): (r: Option<nat>)
    ensures r.Some? ==> r.value < |extensions| && HasExtension(link, extensions[r.value])
    ensures r.Some? ==> forall j :: 0 <= j < r.value ==> !HasExtension(link, extensions[j])
    ensures r.None? <==> forall j :: 0 <= j < |extensions| ==> !HasExtension(link, extensions[j])
  {
    if extensions == [] then None
    else if HasExtension(link, extensions[0]) then Some(0)
    else
      match FirstExtension(link, extensions[1..])
      case None => None
      case Some(i) => Some(i + 1)
  }

  /** `_get_file_extension(link)`: the first extension to save that the link has, or
      `None`. */
  function FileExtension(link: string): (r: Option<string>)
    ensures r.Some? ==> r.value in FileExtensionsToSave && HasExtension(link, r.value)
    ensures r.None? <==> forall e :: e in FileExtensionsToSave ==> !HasExtension(link, e)
  {
    match FirstExtension(link, FileExtensionsToSave)
    case None => None
    case Some(k) => Some(FileExtensionsToSave[k])
  }

  /** `_get_filename_and_filepath(link, file_extension)`, given the link's digest: the file
      is named by the digest and the extension, and lies in the save directory. */
  function FilenameAndPath(saveDirpath: string, digest: string, extension: string): (r: (string, string))
    ensures r.1 == saveDirpath + r.0
    ensures digest <= r.0 && EndsWith(r.0, "." + extension)
  {
    var filename := digest + "." + extension;
    assert (filename)[|filename| - |"." + extension|..] == "." + extension;
    (filename, saveDirpath + filename)
  }

  // ---------------------------------------------------------------------------------------
  // Saving the files of a message

  /** A download: the link and the path its content is written to. */
  datatype Saved = Saved(link: string, filepath: string)

  /** What `run` has done so far: the paths that exist, the downloads and the replies. */
  datatype Effects = Effects(existing: set<string>, saves: seq<Saved>, replies: seq<string>)

  /** The reply announcing a saved file. */
  function SavedReply(url: string, filename: string): string {
    "File saved to " + url + filename + " ."
  }

  /** One link of `run`: saved when the module is enabled, the link is non-empty and a 4chan
      link, it has an extension to save and its path does not exist yet; the reply is sent
      only when an access URL is configured. */
  function Step(disabled: bool, saveDirpath: Option<string>, url: Option<string>, digest: string -> string,
                e: Effects, link: string): Effects
    requires !disabled ==> saveDirpath.Some?
  {
    if link == [] || disabled || !IsChanLink(link) then e
    else match FileExtension(link)
      case None => e
      case Some(extension) =>
        var (filename, filepath) := FilenameAndPath(saveDirpath.value, digest(link), extension);
        if filepath in e.existing then e
        else Effects(e.existing + {filepath}, e.saves + [Saved(link, filepath)],
                     e.replies + (if url.Some? then [SavedReply(url.value, filename)] else []))
  }

  /** The links of `run` taken in order. */
  function RunEffects(disabled: bool, saveDirpath: Option<string>, url: Option<string>, digest: string -> string,
                      existing: set<string>, links: seq<string>): Effects
    requires !disabled ==> saveDirpath.Some?
  {
    if links == [] then Effects(existing, [], [])
    else Step(disabled, saveDirpath, url, digest,
              RunEffects(disabled, saveDirpath, url, digest, existing, links[..|links| - 1]), links[|links| - 1])
  }

  class ChanSave {
    /** `self.save_dirpath`, `self.disabled` and `self.url_to_access_saved_files`; an
        attribute that was never assigned is `None` (or `false`). */
    var saveDirpath: Option<string>
    var disabled: bool
    var urlToAccessSavedFiles: Option<string>

    /** An enabled module has a save directory; the directory and the access URL end with
        a slash; the URL is read only by an enabled module. */
    ghost predicate Valid()
      reads this
    {
      && (!disabled ==> saveDirpath.Some?)
      && (saveDirpath.Some? ==> EndsWith(saveDirpath.value, "/"))
      && (urlToAccessSavedFiles.Some? ==> !disabled && EndsWith(urlToAccessSavedFiles.value, "/"))
    }

    /** `ChanSave(config, matrix, database, requests)`, reading the `chan_save` section
        `settings`; `writable(path)` is `os.access(path, os.W_OK)`. */
    constructor(settings: map<string, string>, writable: string -> bool)
      ensures Valid()
      ensures saveDirpath == (if IsSet(Setting(settings, "save_dirpath"))
                              then Some(WithSlash(settings["save_dirpath"])) else None)
      ensures disabled <==> !IsSet(Setting(settings, "save_dirpath")) || !writable(saveDirpath.value)
      ensures urlToAccessSavedFiles == (if !disabled && IsSet(Setting(settings, "url_to_access_saved_files"))
                                        then Some(WithSlash(settings["url_to_access_saved_files"])) else None)
    {
      var dirpath := Setting(settings, "save_dirpath");
      var url := Setting(settings, "url_to_access_saved_files");
      urlToAccessSavedFiles := None;
      if dirpath.Some? && dirpath.value != [] {
        var normalised := WithSlash(dirpath.value);
        saveDirpath := Some(normalised);
        if !writable(normalised) {
          disabled := true;
        } else {
          disabled := false;
          if url.Some? && url.value != [] {
            urlToAccessSavedFiles := Some(WithSlash(url.value));
          }
        }
      } else {
        saveDirpath := None;
        disabled := true;
      }
    }

    /** `_should_run(link)` */
    predicate ShouldRun(link: string)
      reads this
    {
      !disabled && IsChanLink(link)
    }

    /** `run(room, event, message)` on the links `_get_links` finds in the message: save
        each new file and announce it; never claim the message. */
    method Run(links: seq<string>, existing: set<string>, digest: string -> string)
      returns (claimed: bool, saves: seq<Saved>, replies: seq<string>)
      requires Valid()
      ensures !claimed
      ensures var e := RunEffects(disabled, saveDirpath, urlToAccessSavedFiles, digest, existing, links);
        saves == e.saves && replies == e.replies
    {
      ghost var e := Effects(existing, [], []);
      var present := existing;
      saves, replies := [], [];
      var i := 0;
      while i < |links|
        invariant 0 <= i <= |links|
        invariant e == RunEffects(disabled, saveDirpath, urlToAccessSavedFiles, digest, existing, links[..i])
        invariant e == Effects(present, saves, replies)
      {
        var link := links[i];
        assert links[..i + 1][..i] == links[..i];
        if link != [] && ShouldRun(link) {
          var extension := FileExtension(link);
          if extension.Some? {
            var (filename, filepath) := FilenameAndPath(saveDirpath.value, digest(link), extension.value);
            if filepath !in present {
              present := present + {filepath};
              saves := saves + [Saved(link, filepath)];
              if urlToAccessSavedFiles.Some? {
                replies := replies + [SavedReply(urlToAccessSavedFiles.value, filename)];
              }
            }
          }
        }
        e := Step(disabled, saveDirpath, urlToAccessSavedFiles, digest, e, link);
        i := i + 1;
      }
      assert links[..i] == links;
      claimed := false;
    }
  }
}
