/** Mime types of media files. */
module Mime {
  import opened Basics

  datatype Group = AudioGroup | VideoGroup | ImageGroup | OtherGroup

  datatype Type =
    | AudioMp3 | AudioM4a | AudioWma | AudioFlac | AudioWave | AudioPcm | Audio3gp | AudioOgg
    | VideoAvi | VideoMpeg | VideoMp4 | VideoWmv | VideoMkv | VideoFlv | VideoMov | Video3gp | VideoTivo
    | ImageJpeg | ImagePng | ImageTiff | ImageBmp
    | Other

  function GroupOf(t: Type): Group {
    match t
    case AudioMp3 | AudioM4a | AudioWma | AudioFlac | AudioWave | AudioPcm | AudioOgg => AudioGroup
    case VideoAvi | VideoMpeg | VideoMp4 | VideoWmv | VideoMkv | VideoFlv | VideoMov | Video3gp
        | VideoTivo => VideoGroup
    case ImageJpeg | ImageTiff | ImageBmp => ImageGroup
    case _ => OtherGroup
  }

  /** The text after the last dot of a file name; empty if there is none. */
  function FileExtension(name: string): string {
    if '.' !in name then ""
    else if name[|name| - 1] == '.' then ""
    else FileExtension(name[..|name| - 1]) + [name[|name| - 1]]
  }

  function Lowercase(s: string): string {
    seq(|s|, i requires 0 <= i < |s| => if 'A' <= s[i] <= 'Z' then (s[i] as int + 32) as char else s[i])
  }

  function TypeFromFile(name: string): Type {
    TypeOfExtension(Lowercase(FileExtension(name)))
  }

  function TypeOfExtension(ext: string): Type {
    if ext == "mp3" then AudioMp3
    else if ext == "m4a" then AudioM4a
    else if ext == "wma" then AudioWma
    else if ext == "flac" then AudioFlac
    else if ext == "wav" then AudioWave
    else if ext == "pcm" then AudioPcm
    else if ext == "ogg" then AudioOgg
    else if ext == "avi" then VideoAvi
    else if ext == "mpg" then VideoMpeg
    else if ext == "mpeg" then VideoMpeg
    else if ext == "mp4" then VideoMp4
    else if ext == "wmv" then VideoWmv
    else if ext == "mkv" then VideoMkv
    else if ext == "flv" then VideoFlv
    else if ext == "mov" then VideoMov
    else if ext == "3gp" then Video3gp
    else if ext == "tivo" then VideoTivo
    else if ext == "jpg" then ImageJpeg
    else if ext == "jpeg" then ImageJpeg
    else if ext == "png" then ImagePng
    else if ext == "tiff" then ImageTiff
    else if ext == "bmp" then ImageBmp
    else Other
  }

  function GroupFromFile(name: string): Group {
    GroupOf(TypeFromFile(name))
  }

  function TypeFromString(s: string): Type {
    if s == "audio/mpeg" then AudioMp3
    else if s == "audio/mp4" then AudioM4a
    else if s == "audio/x-ms-wma" then AudioWma
    else if s == "audio/flac" then AudioFlac
    else if s == "audio/x-wav" then AudioWave
    else if s == "audio/L16" then AudioPcm
    else if s == "application/ogg" then AudioOgg
    else if s == "video/avi" then VideoAvi
    else if s == "video/mpeg" then VideoMpeg
    else if s == "video/mp4" then VideoMp4
    else if s == "video/x-ms-wmv" then VideoWmv
    else if s == "video/x-matroska" then VideoMkv
    else if s == "video/x-flv" then VideoFlv
    else if s == "video/quicktime" then VideoMov
    else if s == "video/3gpp" then Video3gp
    else if s == "video/x-tivo-mpeg" then VideoTivo
    else if s == "image/jpeg" then ImageJpeg
    else if s == "image/png" then ImagePng
    else if s == "image/tiff" then ImageTiff
    else if s == "image/bmp" then ImageBmp
    else Other
  }

  /** None where the source throws. */
  function ToString(t: Type): Option<string> {
    match t
    case AudioMp3 => Some("audio/mpeg")
    case AudioM4a => Some("audio/mp4")
    case AudioWma => Some("audio/x-ms-wma")
    case AudioFlac => Some("audio/flac")
    case AudioWave => Some("audio/x-wav")
    case AudioPcm => Some("audio/L16")
    case AudioOgg => Some("application/ogg")
    case VideoAvi => Some("video/avi")
    case VideoMpeg => Some("video/mpeg")
    case VideoMp4 => Some("video/mp4")
    case VideoWmv => Some("video/x-ms-wmv")
    case VideoMkv => Some("video/x-matroska")
    case VideoFlv => Some("video/x-flv")
    case VideoMov => Some("video/quicktime")
    case Video3gp => Some("video/3gpp")
    case VideoTivo => Some("video/x-tivo-mpeg")
    case ImageJpeg => Some("image/jpeg")
    case ImageTiff => Some("image/tiff")
    case ImageBmp => Some("image/bmp")
    case ImagePng => Some("image/png")
    case _ => None
  }

  /** None where the source throws. */
  function ExtensionFromType(t: Type): Option<string> {
    match t
    case AudioMp3 => Some("mp3")
    case AudioM4a => Some("mp4")
    case AudioWma => Some("wma")
    case AudioFlac => Some("flac")
    case AudioWave => Some("wav")
    case AudioPcm => Some("pcm")
    case AudioOgg => Some("ogg")
    case VideoAvi => Some("avi")
    case VideoMpeg => Some("mpeg")
    case VideoMp4 => Some("mp4")
    case VideoWmv => Some("wmv")
    case VideoMkv => Some("mkv")
    case VideoFlv => Some("flv")
    case VideoMov => Some("mpv")
    case Video3gp => Some("3gp")
    case VideoTivo => Some("tivo")
    case ImageJpeg => Some("jpg")
    case ImageTiff => Some("tiff")
    case ImageBmp => Some("bmp")
    case ImagePng => Some("png")
    case _ => None
  }

  ghost predicate RoundTrips(t: Type) {
    ToString(t).Some? && TypeFromString(ToString(t).value) == t && ExtensionFromType(t).Some?
  }

  lemma AudioRoundTrip(t: Type)
    requires t in {AudioMp3, AudioM4a, AudioWma, AudioFlac, AudioWave, AudioPcm, AudioOgg}
    ensures RoundTrips(t)
  {
  }

  lemma VideoRoundTrip(t: Type)
    requires t in {VideoAvi, VideoMpeg, VideoMp4, VideoWmv, VideoMkv}
    ensures RoundTrips(t)
  {
  }

  lemma OtherVideoRoundTrip(t: Type)
    requires t in {VideoFlv, VideoMov, Video3gp, VideoTivo}
    ensures RoundTrips(t)
  {
  }

  lemma ImagesAreNoAudio(s: string)
    requires s != "" && s[0] == 'i'
    ensures s != "audio/mpeg" && s != "audio/mp4" && s != "audio/x-ms-wma" && s != "audio/flac" && s != "audio/x-wav"
    ensures s != "audio/L16" && s != "application/ogg"
  {
  }

  lemma ImagesAreNoVideo(s: string)
    requires s != "" && s[0] == 'i'
    ensures s != "video/avi" && s != "video/mpeg" && s != "video/mp4" && s != "video/x-ms-wmv"
    ensures s != "video/x-matroska" && s != "video/x-flv" && s != "video/quicktime" && s != "video/3gpp"
    ensures s != "video/x-tivo-mpeg"
  {
  }

  lemma ImageRoundTrip(t: Type)
    requires t in {ImageJpeg, ImagePng, ImageTiff, ImageBmp}
    ensures RoundTrips(t)
  {
    ImagesAreNoAudio(ToString(t).value);
    ImagesAreNoVideo(ToString(t).value);
  }

  lemma NotPrinted(t: Type)
    requires t == Other || t == Audio3gp
    ensures ToString(t) == None
  {
  }

  /** Every type can be printed and read back, and has an extension, but for two:
      unknown files, and 3gp audio, which no file name yields. */
  lemma StringRoundTrip(t: Type)
    ensures ToString(t).Some? <==> t != Other && t != Audio3gp
    ensures ToString(t).Some? ==> TypeFromString(ToString(t).value) == t && ExtensionFromType(t).Some?
  {
    hide TypeFromString, ToString, ExtensionFromType;
    if t == Other || t == Audio3gp {
      NotPrinted(t);
    } else if t in {AudioMp3, AudioM4a, AudioWma, AudioFlac, AudioWave, AudioPcm, AudioOgg} {
      AudioRoundTrip(t);
    } else if t in {VideoAvi, VideoMpeg, VideoMp4, VideoWmv, VideoMkv} {
      VideoRoundTrip(t);
    } else if t in {VideoFlv, VideoMov, Video3gp, VideoTivo} {
      OtherVideoRoundTrip(t);
    } else {
      ImageRoundTrip(t);
    }
  }

  // ----- What the texts say -----

  lemma AudioText(t: Type)
    requires GroupOf(t) == AudioGroup
    ensures ToString(t).Some?
    ensures "audio/" <= ToString(t).value || ToString(t).value == "application/ogg"
  {
  }

  lemma VideoText(t: Type)
    requires GroupOf(t) == VideoGroup
    ensures ToString(t).Some? && "video/" <= ToString(t).value
  {
  }

  lemma ImageText(t: Type)
    requires GroupOf(t) == ImageGroup
    ensures ToString(t).Some? && "image/" <= ToString(t).value
  {
  }

  /** The texts of the three groups. */
  ghost predicate IsTextOf(group: Group, text: string) {
    match group
    case AudioGroup => "audio/" <= text || text == "application/ogg"
    case VideoGroup => "video/" <= text
    case ImageGroup => "image/" <= text
    case OtherGroup => false
  }

  lemma GroupsApart(text: string, g: Group, h: Group)
    requires IsTextOf(g, text) && IsTextOf(h, text)
    ensures g == h
  {
    assert text != "" && text[0] == match g case AudioGroup => 'a' case VideoGroup => 'v' case _ => 'i';
    assert text[0] == match h case AudioGroup => 'a' case VideoGroup => 'v' case _ => 'i';
  }

  /** The mime type of a file in a known group starts with the name of that group and of
      no other; Ogg is an application. */
  lemma TextTellsGroup(name: string, g: Group)
    requires GroupFromFile(name) != OtherGroup
    ensures ToString(TypeFromFile(name)).Some?
    ensures GroupFromFile(name) == g <==> IsTextOf(g, ToString(TypeFromFile(name)).value)
  {
    var t := TypeFromFile(name);
    hide TypeFromFile, ToString, IsTextOf;
    GroupText(t);
    if IsTextOf(g, ToString(t).value) {
      GroupsApart(ToString(t).value, g, GroupOf(t));
    }
  }

  lemma GroupText(t: Type)
    requires GroupOf(t) != OtherGroup
    ensures ToString(t).Some? && IsTextOf(GroupOf(t), ToString(t).value)
  {
    hide ToString;
    if GroupOf(t) == AudioGroup {
      AudioText(t);
    } else if GroupOf(t) == VideoGroup {
      VideoText(t);
    } else {
      ImageText(t);
    }
  }

  // ----- The extension of a type as the extension of a file -----

  lemma {:induction false} ExtensionOfName(base: string, ext: string)
    requires '.' !in ext
    ensures FileExtension(base + ['.'] + ext) == ext
  {
    var name := base + ['.'] + ext;
    assert name[|base|] == '.';
    if ext != "" {
      var n := |ext| - 1;
      assert name[..|name| - 1] == base + ['.'] + ext[..n];
      assert ext[n] in ext;
      ExtensionOfName(base, ext[..n]);
    }
  }

  /** The extension of a type is that of a file of this type. */
  predicate NamesItsType(t: Type) {
    ExtensionFromType(t).Some? && TypeOfExtension(ExtensionFromType(t).value) == t
  }

  lemma AudioExtensions(t: Type)
    requires GroupOf(t) == AudioGroup
    ensures NamesItsType(t) <==> t != AudioM4a
  {
  }

  lemma VideoExtensions(t: Type)
    requires t in {VideoAvi, VideoMpeg, VideoMp4, VideoWmv, VideoMkv}
    ensures NamesItsType(t)
  {
  }

  lemma OtherVideoExtensions(t: Type)
    requires t in {VideoFlv, VideoMov, Video3gp, VideoTivo}
    ensures NamesItsType(t) <==> t != VideoMov
  {
  }

  lemma ImageExtensions(t: Type)
    requires t in {ImageJpeg, ImagePng}
    ensures NamesItsType(t)
  {
  }

  lemma OtherImageExtensions(t: Type)
    requires t in {ImageTiff, ImageBmp}
    ensures NamesItsType(t)
  {
  }

  lemma ExtensionsAreLower(t: Type)
    requires ExtensionFromType(t).Some?
    ensures forall k :: 0 <= k < |ExtensionFromType(t).value| ==> !('A' <= ExtensionFromType(t).value[k] <= 'Z')
  {
  }

  /** The same letters, of which any may be written as capitals. */
  ghost predicate IsSpelling(written: string, ext: string) {
    && |written| == |ext|
    && forall k :: 0 <= k < |ext| ==>
         written[k] == ext[k] || ('A' <= written[k] <= 'Z' && written[k] as int + 32 == ext[k] as int)
  }

  lemma SpellingIsRead(written: string, ext: string)
    requires IsSpelling(written, ext) && '.' !in ext
    requires forall k :: 0 <= k < |ext| ==> !('A' <= ext[k] <= 'Z')
    ensures Lowercase(written) == ext && '.' !in written
  {
    forall k | 0 <= k < |written|
      ensures written[k] != '.' && Lowercase(written)[k] == ext[k]
    {
      assert ext[k] in ext;
    }
  }

  /** A file with the extension of a type, in small letters or capitals, is of that type, but
      for m4a, whose extension is that of a video, and mov, whose extension no file type has. */
  lemma ExtensionNamesTypeExactly(base: string, written: string, t: Type)
    requires ExtensionFromType(t).Some? && IsSpelling(written, ExtensionFromType(t).value)
    ensures TypeFromFile(base + ['.'] + written) == t <==> t != AudioM4a && t != VideoMov
  {
    hide TypeOfExtension, ExtensionFromType, FileExtension, Lowercase, IsSpelling;
    ExtensionsArePlain(t);
    ExtensionsAreLower(t);
    SpellingIsRead(written, ExtensionFromType(t).value);
    ExtensionOfName(base, written);
    OnlyKnownExtensions(t);
    if t in {VideoAvi, VideoMpeg, VideoMp4, VideoWmv, VideoMkv} {
      VideoExtensions(t);
    } else if t in {VideoFlv, VideoMov, Video3gp, VideoTivo} {
      OtherVideoExtensions(t);
    } else if t in {ImageJpeg, ImagePng} {
      ImageExtensions(t);
    } else if t in {ImageTiff, ImageBmp} {
      OtherImageExtensions(t);
    } else {
      AudioExtensions(t);
    }
  }

  lemma OnlyKnownExtensions(t: Type)
    requires ExtensionFromType(t).Some?
    ensures t != Other && t != Audio3gp
  {
  }

  lemma PlayableFilesPrint(name: string)
    requires GroupFromFile(name) != OtherGroup
    ensures ToString(TypeFromFile(name)).Some?
  {
    hide TypeFromFile;
  }

  /** Extensions contain neither dots nor slashes. */
  lemma ExtensionsArePlain(t: Type)
    requires ExtensionFromType(t).Some?
    ensures '.' !in ExtensionFromType(t).value && '/' !in ExtensionFromType(t).value
  {
  }
}
