/**
 * The pure decision logic of the downloader: from a user profile to the CDN
 * URL of its avatar (`avatar_url_from_user`), and from that URL to the
 * extension and the output file name `process_user` derives.
 */
module Avatar {
  import opened Wrappers
  import opened Text

  const ApiBase: string := "https://discord.com/api/v10"
  const CdnBase: string := "https://cdn.discordapp.com"
  const OutputDir: string := "avatars"

  /** One key of the profile's JSON object: missing, `null`, or a string. */
  datatype Field = Absent | Null | Text(s: string)

  /** The fields of a fetched profile that the downloader reads. */
  datatype User = User(id: Field, username: Field, discriminator: Field, avatar: Field)

  /** `f"{obj.get(key, default)}"`: a `null` value prints as "None". */
  function Render(f: Field, default: string): (r: string)
    ensures f.Text? ==> r == f.s
    ensures f.Absent? ==> r == default
  {
    match f
    case Absent => default
    case Null => "None"
    case Text(s) => s
  }

  /** The profile carries an uploaded avatar: `avatar` is a non-empty string. */
  predicate HasCustomAvatar(u: User)
  {
    u.avatar.Text? && |u.avatar.s| > 0
  }

  /** An avatar hash with the `a_` prefix names an animated image. */
  function HashExtension(hash: string): (ext: string)
    ensures ext == "gif" || ext == "png"
    ensures (ext == "gif") == StartsWith(hash, "a_")
  {
    if StartsWith(hash, "a_") then "gif" else "png"
  }

  /**
   * The default-avatar slot: `int(discriminator) % 5`, where a missing
   * discriminator reads as "0" and a failing `int()` (on `null` or a
   * non-numeric string) gives 0.
   */
  function DefaultIndex(d: Field): (idx: nat)
    ensures idx < 5
  {
    var parsed := match d
      case Absent => ParseInt("0")
      case Null => None
      case Text(s) => ParseInt(s);
    match parsed
    case Some(n) => n % 5
    case None => 0
  }

  /**
   * `avatar_url_from_user`; `None` is the `KeyError` raised when the profile
   * has no `id`.
   */
  function AvatarUrl(u: User): (r: Option<string>)
    ensures r.None? <==> u.id.Absent?
  {
    if u.id.Absent? then None
    else
      var id := Render(u.id, "");
      if HasCustomAvatar(u) then
        var hash := u.avatar.s;
        Some(CdnBase + "/avatars/" + id + "/" + hash + "." + HashExtension(hash) + "?size=2048")
      else
        Some(CdnBase + "/embed/avatars/" + [DigitChar(DefaultIndex(u.discriminator))] + ".png")
  }

  /** `url.split("?")[0].split(".")[-1]`. */
  function Extension(url: string): string
  {
    var path := Split(url, '?')[0];
    var pieces := Split(path, '.');
    pieces[|pieces| - 1]
  }

  /** `f"{user.get('username', 'user')}_{user_id}.{ext}".replace("/", "_")`. */
  function FileName(username: Field, id: string, ext: string): (name: string)
    ensures '/' !in name
  {
    ReplaceRemoves(Render(username, "user") + "_" + id + "." + ext, '/', '_');
    Replace(Render(username, "user") + "_" + id + "." + ext, '/', '_')
  }

  /** `os.path.join(OUTPUT_DIR, filename)` for a file name without a slash. */
  function OutPath(name: string): string
    requires '/' !in name
  {
    OutputDir + "/" + name
  }

  /** The extension the profile calls for: `gif` only for an animated custom avatar. */
  function ExpectedExtension(u: User): (ext: string)
    ensures ext == "gif" <==> HasCustomAvatar(u) && StartsWith(u.avatar.s, "a_")
  {
    if HasCustomAvatar(u) then HashExtension(u.avatar.s) else "png"
  }

  lemma NoQuestionMarkInBase()
    ensures '?' !in CdnBase + "/avatars/"
    ensures '?' !in CdnBase + "/embed/avatars/"
  {
  }

  /**
   * A custom avatar gives `/avatars/{id}/{hash}.{gif|png}?size=2048`, `gif`
   * exactly when the hash starts with `a_`.
   */
  lemma CustomAvatarUrl(u: User)
    requires !u.id.Absent? && HasCustomAvatar(u)
    ensures AvatarUrl(u) == Some(CdnBase + "/avatars/" + Render(u.id, "") + "/" + u.avatar.s + "."
                                 + (if StartsWith(u.avatar.s, "a_") then "gif" else "png") + "?size=2048")
  {
  }

  /**
   * No (or an empty) avatar gives `/embed/avatars/{idx}.png` with the slot
   * `idx` chosen by the discriminator.
   */
  lemma DefaultAvatarUrl(u: User)
    requires !u.id.Absent? && !HasCustomAvatar(u)
    ensures AvatarUrl(u) == Some(CdnBase + "/embed/avatars/" + [DigitChar(DefaultIndex(u.discriminator))] + ".png")
  {
  }

  /** A discriminator `int()` accepts selects slot `int(d) % 5`, negatives included. */
  lemma DefaultIndexParsed(s: string, n: int)
    requires ParseInt(s) == Some(n)
    ensures DefaultIndex(Text(s)) == n % 5
  {
  }

  /** A discriminator `int()` rejects, or a `null` one, selects slot 0. */
  lemma DefaultIndexUnparsed(d: Field)
    requires d.Null? || (d.Text? && ParseInt(d.s).None?)
    ensures DefaultIndex(d) == 0
  {
  }

  /** A run of digits longer than `int()` accepts selects slot 0, like any other failing `int()`. */
  lemma DefaultIndexTooLong(s: string)
    requires IsDigits(s) && |s| > MaxStrDigits
    ensures DefaultIndex(Text(s)) == 0
  {
    ParseIntDigitLimit(s);
  }

  /** Worked example: `int()` rejects "\x1c7", so slot 0 although `strip()` would leave "7". */
  lemma DefaultIndexSeparatorPadded()
    ensures DefaultIndex(Text("\U{1c}7")) == 0
  {
    ParseIntSeparator("\U{1c}7", 0);
  }

  /** A missing discriminator defaults to "0", so slot 0. */
  lemma DefaultIndexAbsent()
    ensures DefaultIndex(Absent) == 0
  {
    assert Strip("0") == "0" by { StripUnpadded("0"); }
    assert DigitsValue("0") == 0 by { assert "0"[..0] == ""; }
  }

  /** Worked example: discriminator "-7" selects slot 3 (Python's `-7 % 5`). */
  lemma DefaultIndexNegative()
    ensures DefaultIndex(Text("-7")) == 3
  {
    StripUnpadded("-7");
    assert "-7"[1..] == "7" && "7"[..0] == "";
    assert ParseInt("-7") == Some(-7);
  }

  /** Worked example: discriminator "7" gives `/embed/avatars/2.png`. */
  lemma DefaultAvatarSeven(id: string)
    ensures AvatarUrl(User(Text(id), Absent, Text("7"), Null)) == Some(CdnBase + "/embed/avatars/2.png")
  {
    StripUnpadded("7");
    assert "7"[..0] == "";
    assert ParseInt("7") == Some(7);
    assert DefaultIndex(Text("7")) == 2;
    assert DigitChar(2) == '2';
    assert CdnBase + "/embed/avatars/" + ['2'] + ".png" == CdnBase + "/embed/avatars/2.png";
  }

  /**
   * The extension recovered from the resolved URL is the one the profile
   * calls for, provided the profile has an id (a `null` one prints as
   * "None") and neither the id nor the avatar hash contains a `?`.
   */
  lemma ExtensionOfAvatarUrl(u: User)
    requires !u.id.Absent? && (u.id.Text? ==> '?' !in u.id.s)
    requires u.avatar.Text? ==> '?' !in u.avatar.s
    ensures Extension(AvatarUrl(u).value) == ExpectedExtension(u)
  {
    if HasCustomAvatar(u) {
      CustomExtension(u);
    } else {
      DefaultExtension(u);
    }
  }

  lemma CustomExtension(u: User)
    requires !u.id.Absent? && (u.id.Text? ==> '?' !in u.id.s)
    requires HasCustomAvatar(u) && '?' !in u.avatar.s
    ensures Extension(AvatarUrl(u).value) == ExpectedExtension(u)
  {
    NoQuestionMarkInBase();
    var ext := ExpectedExtension(u);
    var id := Render(u.id, "");
    assert '?' !in id;
    var stem := CdnBase + "/avatars/" + id + "/" + u.avatar.s;
    assert AvatarUrl(u).value == stem + "." + ext + "?size=2048";
    ExtensionOfPath(stem, ext, "?size=2048");
  }

  lemma DefaultExtension(u: User)
    requires !u.id.Absent? && !HasCustomAvatar(u)
    ensures Extension(AvatarUrl(u).value) == "png"
  {
    NoQuestionMarkInBase();
    var stem := CdnBase + "/embed/avatars/" + [DigitChar(DefaultIndex(u.discriminator))];
    assert AvatarUrl(u).value == stem + ".png";
    PngSuffix(stem);
    ExtensionOfPath(stem, "png", "");
  }

  lemma PngSuffix(stem: string)
    ensures stem + ".png" == stem + "." + "png" + ""
  {
    assert ".png" == "." + "png";
  }

  /** The extension of `{stem}.{ext}` followed by an optional query string is `ext`. */
  lemma ExtensionOfPath(stem: string, ext: string, query: string)
    requires '?' !in stem && '?' !in ext && '.' !in ext
    requires query == [] || query[0] == '?'
    ensures Extension(stem + "." + ext + query) == ext
  {
    var path := stem + ['.'] + ext;
    assert '?' !in path;
    if query == [] {
      assert stem + "." + ext + query == path;
      JoinSplit(path, '?');
    } else {
      assert stem + "." + ext + query == path + ['?'] + query[1..];
      SplitFirst(path, query[1..], '?');
    }
    SplitLast(stem, ext, '.');
  }

  /**
   * The file name has no `/`, starts with the sanitised username (or "user"
   * when the key is absent) and, for a digit id and a gif/png extension,
   * ends with `_{id}.{ext}`.
   */
  lemma FileNameShape(username: Field, id: string, ext: string)
    requires IsDigits(id) && (ext == "gif" || ext == "png")
    ensures var name := FileName(username, id, ext);
      && '/' !in name
      && |name| == |Render(username, "user")| + |id| + |ext| + 2
      && StartsWith(name, Replace(Render(username, "user"), '/', '_'))
      && name[|name| - |id| - |ext| - 2..] == "_" + id + "." + ext
  {
    var user := Render(username, "user");
    var tail := "_" + id + "." + ext;
    assert user + "_" + id + "." + ext == user + tail;
    ReplaceSpec(user + tail, '/', '_');
    ReplaceAppend(user, tail, '/', '_');
    assert '/' !in tail;
    ReplaceAbsent(tail, '/', '_');
  }
}
