/** File uploads (backend/routes/uploads.js): the multer stage that filters,
    limits and names an incoming file, and the three routes that answer
    with its public URL. The disk itself is not modelled: a stored file is
    represented by the name it was stored under. `Date.now()` and the
    rounded `Math.random() * 1e9` are parameters. */
module Uploads {
  import opened Wrappers
  import opened Models
  import opened Http
  import Strings

  /** `limits: { fileSize: 5 * 1024 * 1024 }`. */
  const MaxFileSize: nat := 5 * 1024 * 1024

  const FilterMessage: string := "Only image files (jpeg, png, gif) are allowed"

  /** A file part of a multipart request, as multer sees it. */
  datatype IncomingFile = IncomingFile(originalName: string, mimeType: string, size: nat)

  /** The outcome of `upload.single("file")`: the file was stored under a
      name, no file was sent, or multer passed an error to `next`. */
  datatype Received = Stored(filename: string) | NoFile | Refused(error: Error)

  datatype UploadBody = UploadBody(url: string, filename: string)

  /** A user as `.select("-password")` returns it. */
  datatype SafeUser = SafeUser(id: Id, name: string, email: string, college: string, year: string,
                               skills: seq<string>, clubs: seq<Id>, avatarUrl: string)

  datatype ProfileBody = ProfileBody(message: string, avatarUrl: string, user: SafeUser)

  /** `/jpeg|jpg|png|gif/.test(mimetype)`: the pattern is not anchored, so
      any mime type containing one of the four words passes. */
  predicate FileFilter(mimeType: string): (ok: bool)
    ensures ok ==> 'g' in mimeType
  {
    WordsHoldG(mimeType);
    || Strings.Contains(mimeType, "jpeg") || Strings.Contains(mimeType, "jpg")
    || Strings.Contains(mimeType, "png") || Strings.Contains(mimeType, "gif")
  }

  /** `path.extname`: from the last `.` of the last path segment, ignoring
      trailing slashes; empty when the segment has no `.`, when its only
      `.` is its first character, and for `..`. */
  function Extname(path: string): (ext: string)
    ensures ext == "" || (ext[0] == '.' && '.' !in ext[1..] && '/' !in ext)
  {
    var p := Strings.DropTrailing(path, '/');
    var seg := p[Strings.LastIndex(p, '/') + 1..];
    var dot := Strings.LastIndex(seg, '.');
    if dot <= 0 || seg == ".." then "" else seg[dot..]
  }

  /** `Date.now() + "-" + Math.round(Math.random() * 1e9) + ext`. */
  function StoredFilename(now: nat, random: nat, originalName: string): (name: string)
    ensures Extname(name) == Extname(originalName)
    ensures Strings.EndsWith(name, Extname(originalName))
    ensures '/' !in name
  {
    var stem := Strings.Decimal(now) + "-" + Strings.Decimal(random);
    var ext := Extname(originalName);
    DecimalHasNoPunctuation(now);
    DecimalHasNoPunctuation(random);
    StemKeepsExtension(stem, ext);
    stem + ext
  }

  /** `${req.protocol}://${req.get("host")}/uploads/${filename}`. */
  function FileUrl(protocol: string, host: string, filename: string): (url: string)
    ensures Strings.StartsWith(url, protocol + "://" + host + "/uploads/")
    ensures '/' !in filename ==> LastSegment(url) == filename
  {
    var dir := protocol + "://" + host + "/uploads";
    SegmentAfterSlash(dir, filename);
    dir + "/" + filename
  }

  /** Everything after the last `/`. */
  function LastSegment(url: string): string {
    url[Strings.LastIndex(url, '/') + 1..]
  }

  /** The multer stage: the filter runs first, then the size limit; a file
      over the limit is refused with multer's own error, which carries no
      status. */
  function Receive(file: Option<IncomingFile>, now: nat, random: nat): (r: Received)
    ensures file.None? <==> r.NoFile?
    ensures file.Some? && !FileFilter(file.value.mimeType) ==> r == Refused(CreateError(400, FilterMessage))
    ensures file.Some? && FileFilter(file.value.mimeType) && file.value.size > MaxFileSize ==>
              r.Refused? && r.error.statusCode.None? && r.error.status.None?
    ensures r.Stored? <==> file.Some? && FileFilter(file.value.mimeType) && file.value.size <= MaxFileSize
    ensures r.Stored? ==> r.filename == StoredFilename(now, random, file.value.originalName)
  {
    match file
    case None => NoFile
    case Some(f) =>
      if !FileFilter(f.mimeType) then Refused(CreateError(400, FilterMessage))
      else if f.size > MaxFileSize then Refused(Error(None, None, Some("File too large"), "MulterError: File too large"))
      else Stored(StoredFilename(now, random, f.originalName))
  }

  /** POST /api/uploads and POST /api/uploads/post, which differ only in the
      token the second one requires. */
  function UploadReply(received: Received, protocol: string, host: string): (reply: Reply<UploadBody>)
    ensures received.Refused? ==> reply == Next(received.error)
    ensures received.NoFile? ==> reply == Next(CreateError(400, "File not provided"))
    ensures received.Stored? ==>
      && reply.Respond? && reply.status == 201
      && reply.body.filename == received.filename
      && reply.body.url == FileUrl(protocol, host, received.filename)
  {
    match received
    case Refused(err) => Next(err)
    case NoFile => Next(CreateError(400, "File not provided"))
    case Stored(name) => Respond(201, UploadBody(FileUrl(protocol, host, name), name))
  }

  function WithoutPassword(u: User): SafeUser {
    SafeUser(u.id, u.name, u.email, u.college, u.year, u.skills, u.clubs, u.avatarUrl)
  }

  /** POST /api/uploads/profile: stores the file and makes its URL the
      actor's avatar. */
  method ProfileUpload(db: Database, actor: Id, received: Received, protocol: string, host: string)
    returns (reply: Reply<ProfileBody>)
    requires db.Valid()
    modifies db`users
    ensures db.Valid()
    ensures received.Refused? ==> reply == Next(received.error) && db.users == old(db.users)
    ensures received.NoFile? ==> reply == Next(CreateError(400, "File not provided")) && db.users == old(db.users)
    ensures received.Stored? && actor !in old(db.users) ==>
      reply == Next(CreateError(404, "User not found")) && db.users == old(db.users)
    ensures received.Stored? && actor in old(db.users) ==>
      var url := FileUrl(protocol, host, received.filename);
      var user := old(db.users)[actor].(avatarUrl := url);
      && db.users == old(db.users)[actor := user]
      && reply == Respond(200, ProfileBody("Profile image uploaded", url, WithoutPassword(user)))
  {
    match received
    case Refused(err) =>
      return Next(err);
    case NoFile =>
      return Next(CreateError(400, "File not provided"));
    case Stored(name) =>
      var url := FileUrl(protocol, host, name);
      if actor !in db.users {
        return Next(CreateError(404, "User not found"));
      }
      var user := db.users[actor].(avatarUrl := url);
      db.PutUser(user);
      reply := Respond(200, ProfileBody("Profile image uploaded", url, WithoutPassword(user)));
  }

  /** The filter is a substring test: a type word anywhere in the mime type
      is enough, whatever surrounds it. */
  lemma FilterIsUnanchored(before: string, word: string, after: string)
    requires word in {"jpeg", "jpg", "png", "gif"}
    ensures FileFilter(before + word + after)
  {
    Strings.ContainsInfix(before, word, after);
  }

  /** Each of the four words contains a `g`, so a mime type without one,
      such as `application/pdf`, holds none of them. */
  lemma WordsHoldG(mimeType: string)
    ensures || Strings.Contains(mimeType, "jpeg") || Strings.Contains(mimeType, "jpg")
            || Strings.Contains(mimeType, "png") || Strings.Contains(mimeType, "gif")
            ==> 'g' in mimeType
  {
    if Strings.Contains(mimeType, "jpeg") {
      Strings.ContainsKeepsChars(mimeType, "jpeg", 'g');
    }
    if Strings.Contains(mimeType, "jpg") {
      Strings.ContainsKeepsChars(mimeType, "jpg", 'g');
    }
    if Strings.Contains(mimeType, "png") {
      Strings.ContainsKeepsChars(mimeType, "png", 'g');
    }
    if Strings.Contains(mimeType, "gif") {
      Strings.ContainsKeepsChars(mimeType, "gif", 'g');
    }
  }

  /** A path without `/` is its own last segment. */
  lemma ExtnameOfSegment(path: string)
    requires '/' !in path
    ensures var dot := Strings.LastIndex(path, '.');
      Extname(path) == if dot <= 0 || path == ".." then "" else path[dot..]
  {
    assert Strings.DropTrailing(path, '/') == path;
    assert Strings.LastIndex(path, '/') == -1;
    assert path[0..] == path;
  }

  /** The extension of `stem.e` is `.e`. */
  lemma ExtnameOf(stem: string, e: string)
    requires |stem| >= 1 && '/' !in stem
    requires '.' !in e && '/' !in e
    requires !(stem == "." && e == "")
    ensures Extname(stem + "." + e) == "." + e
  {
    var path := stem + ['.'] + e;
    NoSlashInJoin(stem, e);
    NotDotDot(stem, e);
    Strings.LastIndexOfConcat(stem, '.', e);
    ExtnameAt(path, |stem|);
    DotSuffix(stem, e);
  }

  lemma DotSuffix(stem: string, e: string)
    ensures (stem + ['.'] + e)[|stem|..] == ['.'] + e
  {
  }

  /** A `/`-free path whose last `.` is past its first character has the
      extension that starts there. */
  lemma ExtnameAt(path: string, dot: int)
    requires '/' !in path && path != ".."
    requires Strings.LastIndex(path, '.') == dot && dot > 0
    ensures Extname(path) == path[dot..]
  {
    ExtnameOfSegment(path);
  }

  lemma NoSlashInJoin(stem: string, e: string)
    requires '/' !in stem && '/' !in e
    ensures '/' !in stem + ['.'] + e
  {
  }

  /** `stem.e` is `..` only for the stem `.` and an empty `e`. */
  lemma NotDotDot(stem: string, e: string)
    requires |stem| >= 1 && !(stem == "." && e == "")
    ensures stem + ['.'] + e != ".."
  {
    var path := stem + ['.'] + e;
    if |path| == 2 {
      assert |stem| == 1 && e == "";
      assert stem == [stem[0]];
      assert path[0] == stem[0] != '.';
    }
  }

  /** A path with neither `.` nor `/` has no extension. */
  lemma ExtnameWithoutDot(path: string)
    requires '.' !in path && '/' !in path
    ensures Extname(path) == ""
  {
    ExtnameOfSegment(path);
  }

  /** A name whose only `.` is its first character, such as `.bashrc`, has
      no extension. */
  lemma DotfileHasNoExtension(name: string)
    requires '.' !in name && '/' !in name
    ensures Extname("." + name) == ""
  {
    var path := "." + name;
    assert path == [] + ['.'] + name;
    assert '/' !in path;
    ExtnameOfSegment(path);
    Strings.LastIndexOfConcat([], '.', name);
  }

  lemma DecimalHasNoPunctuation(n: nat)
    ensures '.' !in Strings.Decimal(n) && '/' !in Strings.Decimal(n)
  {
    var d := Strings.Decimal(n);
    assert forall i :: 0 <= i < |d| ==> d[i] != '.' && d[i] != '/';
  }

  /** Behind a non-empty stem without `.` or `/` an extension stays the
      name's extension, and the name holds no `/`. */
  lemma StemKeepsExtension(stem: string, ext: string)
    requires |stem| >= 1 && '.' !in stem && '/' !in stem
    requires ext == "" || (ext[0] == '.' && '.' !in ext[1..] && '/' !in ext)
    ensures Extname(stem + ext) == ext
    ensures Strings.EndsWith(stem + ext, ext)
    ensures '/' !in stem + ext
  {
    if ext == "" {
      assert stem + ext == stem;
      ExtnameWithoutDot(stem);
    } else {
      assert ext == "." + ext[1..];
      assert stem + ext == stem + "." + ext[1..];
      ExtnameOf(stem, ext[1..]);
    }
    assert (stem + ext)[|stem + ext| - |ext|..] == ext;
  }

  /** Behind the last `/` of `dir + "/" + filename` is the whole file name,
      when it holds no `/`. */
  lemma SegmentAfterSlash(dir: string, filename: string)
    ensures '/' !in filename ==> LastSegment(dir + "/" + filename) == filename
  {
    if '/' !in filename {
      var url := dir + "/" + filename;
      assert url == dir + ['/'] + filename;
      Strings.LastIndexOfConcat(dir, '/', filename);
      assert url[|dir| + 1..] == filename;
    }
  }
}
