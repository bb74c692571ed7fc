/** The media ingestion pipeline (internal/services/media_service.go): size check,
    MIME allow-list, per-type normalisation, content hash, storage key and URL, the
    existence check, and one upload to object storage. MIME sniffing, image
    decoding and resizing, and SHA-256 (FIPS 180-4) are parameters; the storage
    backend is a client object that logs every PutObject it receives. */
module MediaServices {
  import opened Wrappers
  import opened Text
  import opened Encoding
  import opened FilePath

  type Bytes = seq<Byte>

  /** A SHA-256 digest: 32 bytes. */
  type Digest = d: seq<Byte> | |d| == 32 witness seq(32, i => 0)

  datatype MediaConfig = MediaConfig(
    maxFileSize: int,
    allowedFormats: seq<string>,
    imageMaxWidth: int,
    imageMaxHeight: int,
    s3Bucket: string)

  datatype ImageSize = ImageSize(width: int, height: int)

  /** The foreign pieces: mimetype.Detect, bimg's Size and its embed-resize to a
      bounding box, and sha256.Sum256. */
  datatype Toolkit = Toolkit(
    detect: Bytes -> string,
    imageSize: Bytes -> Result<ImageSize, string>,
    embedResize: (Bytes, int, int) -> Result<Bytes, string>,
    sha256: Bytes -> Digest)

  /** The descriptor handed back on success. */
  datatype ProcessedMedia = ProcessedMedia(url: string, hash: string, mimeType: string, size: int)

  datatype ImageError = GettingImageSize(cause: string) | ProcessingImage(cause: string)

  datatype UrlError =
    | CheckingURL(cause: string)
    | InvalidStatus(code: int)
    | UnsupportedContentType(contentType: string)
    | UrlTooLarge(length: int, limit: int)

  /** The error chain of each failure, outermost wrapper first. An upload failure is
      wrapped twice, once by uploadToS3 and once by its caller. */
  datatype MediaError =
    | ReadingFile(cause: string)
    | FileTooLarge(size: int, limit: int)
    | UnsupportedFormat(mimeType: string)
    | ProcessingMedia(imageError: ImageError)
    | UploadingToS3(upload: UploadError)
    | InvalidURL(urlError: UrlError)
    | Downloading(cause: string)
    | ReadingResponseBody(cause: string)
    | CreatingTempFile(cause: string)
    | WritingTempFile(cause: string)
    | SeekingTempFile(cause: string)

  datatype UploadError = PutFailed(cause: string)

  datatype PutObjectInput = PutObjectInput(bucket: string, key: string, body: Bytes, contentType: string)

  /** The storage client. Every PutObject it receives is appended to `puts`, whether
      the backend then accepts it or answers with `fault`. */
  class S3Client {
    ghost var puts: seq<PutObjectInput>

    constructor ()
      ensures puts == []
    {
      puts := [];
    }

    method PutObject(input: PutObjectInput, fault: Option<string>) returns (err: Option<string>)
      modifies this
      ensures puts == old(puts) + [input]
      ensures err == fault
    {
      puts := puts + [input];
      err := fault;
    }
  }

  // ---------------------------------------------------------------------------
  // The pure decisions
  // ---------------------------------------------------------------------------

  /** isAllowedFormat's meaning: some listed format is a prefix of the type. */
  predicate AllowedFormat(formats: seq<string>, mimeType: string) {
    exists i :: 0 <= i < |formats| && HasPrefix(mimeType, formats[i])
  }

  /** processImage: an unreadable size is an error; an image over the bounding box
      in either dimension is embed-resized to it; any other image is returned as
      it came. */
  function ProcessImage(cfg: MediaConfig, kit: Toolkit, data: Bytes): Result<Bytes, ImageError> {
    match kit.imageSize(data)
    case Failure(e) => Failure(GettingImageSize(e))
    case Success(size) =>
      if size.width > cfg.imageMaxWidth || size.height > cfg.imageMaxHeight then
        match kit.embedResize(data, cfg.imageMaxWidth, cfg.imageMaxHeight)
        case Failure(e) => Failure(ProcessingImage(e))
        case Success(processed) => Success(processed)
      else Success(data)
  }

  /** processMedia: images go through processImage; processAudio and processVideo
      return their input, and so does every other type. */
  function ProcessMedia(cfg: MediaConfig, kit: Toolkit, data: Bytes, mimeType: string): Result<Bytes, ImageError> {
    if HasPrefix(mimeType, "image/") then ProcessImage(cfg, kit, data)
    else if HasPrefix(mimeType, "audio/") then Success(data)
    else if HasPrefix(mimeType, "video/") then Success(data)
    else Success(data)
  }

  /** Two decimal digits, zero-padded. */
  function Pad2(n: nat): (s: string)
    requires n < 100
    ensures |s| == 2 && AllDigits(s) && DecimalValue(s) == n
  {
    var s := [DigitChar(n / 10), DigitChar(n % 10)];
    assert s[..1] == [DigitChar(n / 10)] && s[..1][..0] == [];
    assert DecimalValue(s[..1]) == n / 10;
    assert DecimalValue(s) == (n / 10) * 10 + n % 10;
    s
  }

  /** time.Format("2006/01/02"): four-digit year, two-digit month and day,
      separated by slashes; each digit group reads back as its number. */
  function DatePath(year: nat, month: nat, day: nat): (s: string)
    requires year < 10000 && 1 <= month <= 12 && 1 <= day <= 31
    ensures |s| == 10 && s[4] == '/' && s[7] == '/'
    ensures AllDigits(s[..4]) && DecimalValue(s[..4]) == year
    ensures AllDigits(s[5..7]) && DecimalValue(s[5..7]) == month
    ensures AllDigits(s[8..]) && DecimalValue(s[8..]) == day
  {
    var hi, lo := Pad2(year / 100), Pad2(year % 100);
    var s := hi + lo + "/" + Pad2(month) + "/" + Pad2(day);
    assert s[..4] == hi + lo && s[5..7] == Pad2(month) && s[8..] == Pad2(day);
    FourDigits(hi, lo);
    s
  }

  /** Two digit pairs read as one four-digit number. */
  lemma FourDigits(hi: string, lo: string)
    requires |hi| == 2 && |lo| == 2 && AllDigits(hi) && AllDigits(lo)
    ensures AllDigits(hi + lo) && DecimalValue(hi + lo) == DecimalValue(hi) * 100 + DecimalValue(lo)
  {
    var s := hi + lo;
    assert lo[..1][..0] == [];
    assert DecimalValue(lo[..1]) == DigitOf(lo[0]);
    assert DecimalValue(lo) == DigitOf(lo[0]) * 10 + DigitOf(lo[1]);
    assert s[..3] == hi + lo[..1] && s[..3][..2] == hi;
    assert DecimalValue(s[..3]) == DecimalValue(hi) * 10 + DigitOf(lo[0]);
    assert DecimalValue(s) == DecimalValue(s[..3]) * 10 + DigitOf(lo[1]);
  }

  /** Distinct dates are filed under distinct date paths. */
  lemma DatePathInjective(y1: nat, m1: nat, d1: nat, y2: nat, m2: nat, d2: nat)
    requires y1 < 10000 && 1 <= m1 <= 12 && 1 <= d1 <= 31
    requires y2 < 10000 && 1 <= m2 <= 12 && 1 <= d2 <= 31
    requires DatePath(y1, m1, d1) == DatePath(y2, m2, d2)
    ensures y1 == y2 && m1 == m2 && d1 == d2
  {
  }

  /** The object key: `date/hash+ext`, where ext is filepath.Ext of the filename. */
  function StorageKey(datePath: string, hash: string, filename: string): string {
    datePath + "/" + hash + Ext(filename)
  }

  /** The public URL uploadToS3 reports. */
  function ObjectUrl(bucket: string, key: string): string {
    "https://" + bucket + ".s3.amazonaws.com/" + key
  }

  datatype Lookup = Lookup(found: bool, url: string)

  /** checkFileExists: a stub that always answers "not stored" (echoing the hash as
      the URL) and never fails. */
  function CheckFileExists(hash: string): (r: Lookup)
    ensures !r.found
  {
    Lookup(false, hash)
  }

  /** What one ProcessAndUpload call returns, and the PutObject it issues if any. */
  datatype Ingestion = Ingestion(result: Result<ProcessedMedia, MediaError>, put: Option<PutObjectInput>)

  /** ProcessAndUpload step by step, with the read file, the formatted date, and the
      storage backend's answer as inputs. */
  function Ingest(cfg: MediaConfig, kit: Toolkit, file: Result<Bytes, string>, filename: string,
                  datePath: string, putFault: Option<string>): Ingestion
  {
    match file
    case Failure(e) => Ingestion(Failure(ReadingFile(e)), None)
    case Success(data) =>
      if |data| > cfg.maxFileSize then Ingestion(Failure(FileTooLarge(|data|, cfg.maxFileSize)), None)
      else
        var mimeType := kit.detect(data);
        if !AllowedFormat(cfg.allowedFormats, mimeType) then Ingestion(Failure(UnsupportedFormat(mimeType)), None)
        else
          match ProcessMedia(cfg, kit, data, mimeType)
          case Failure(e) => Ingestion(Failure(ProcessingMedia(e)), None)
          case Success(processed) =>
            var hash := HexEncode(kit.sha256(processed));
            var key := StorageKey(datePath, hash, filename);
            var lookup := CheckFileExists(hash);
            if lookup.found then
              Ingestion(Success(ProcessedMedia(lookup.url, hash, mimeType, |processed|)), None)
            else
              var input := PutObjectInput(cfg.s3Bucket, key, processed, mimeType);
              if putFault.Some? then Ingestion(Failure(UploadingToS3(PutFailed(putFault.value))), Some(input))
              else Ingestion(Success(ProcessedMedia(ObjectUrl(cfg.s3Bucket, key), hash, mimeType, |processed|)), Some(input))
  }

  function PutsOf(o: Ingestion): seq<PutObjectInput> {
    if o.put.Some? then [o.put.value] else []
  }

  /** The HEAD response ValidateURL inspects: a transport failure, or the status,
      the Content-Type header and the Content-Length (-1 when unknown). */
  datatype HeadResponse = HeadFailed(cause: string) | HeadOk(status: int, contentType: string, contentLength: int)

  /** ValidateURL's decision: the request must succeed, then the status must be 200,
      then the Content-Type must be allowed, then the length must not exceed the
      maximum. */
  function CheckHead(cfg: MediaConfig, head: HeadResponse): Option<UrlError> {
    match head
    case HeadFailed(e) => Some(CheckingURL(e))
    case HeadOk(status, contentType, length) =>
      if status != 200 then Some(InvalidStatus(status))
      else if !AllowedFormat(cfg.allowedFormats, contentType) then Some(UnsupportedContentType(contentType))
      else if length > cfg.maxFileSize then Some(UrlTooLarge(length, cfg.maxFileSize))
      else None
  }

  /** The GET that follows a successful check: a transport failure, a failure while
      reading the body, or the body. */
  datatype Download = GetFailed(cause: string) | BodyFailed(cause: string) | Body(data: Bytes)

  /** Where the temporary-file round trip can fail. */
  datatype TempFileFault = NoTempFault | CreateFault(cause: string) | WriteFault(cause: string) | SeekFault(cause: string)

  /** ProcessURL: validate, download, spool to a temporary file, then ingest under
      filepath.Base of the URL. Reading the temporary file back is taken to give
      the downloaded bytes. */
  function IngestUrl(cfg: MediaConfig, kit: Toolkit, url: string, head: HeadResponse, download: Download,
                     temp: TempFileFault, datePath: string, putFault: Option<string>): Ingestion
  {
    match CheckHead(cfg, head)
    case Some(e) => Ingestion(Failure(InvalidURL(e)), None)
    case None =>
      match download
      case GetFailed(e) => Ingestion(Failure(Downloading(e)), None)
      case BodyFailed(e) => Ingestion(Failure(ReadingResponseBody(e)), None)
      case Body(data) =>
        match temp
        case CreateFault(e) => Ingestion(Failure(CreatingTempFile(e)), None)
        case WriteFault(e) => Ingestion(Failure(WritingTempFile(e)), None)
        case SeekFault(e) => Ingestion(Failure(SeekingTempFile(e)), None)
        case NoTempFault => Ingest(cfg, kit, Success(data), Base(url), datePath, putFault)
  }

  // ---------------------------------------------------------------------------
  // The service
  // ---------------------------------------------------------------------------

  class MediaService {
    const config: MediaConfig
    const s3Client: S3Client

    constructor (config: MediaConfig, s3Client: S3Client)
      ensures this.config == config && this.s3Client == s3Client
    {
      this.config := config;
      this.s3Client := s3Client;
    }

    /** isAllowedFormat: scans the list and stops at the first matching prefix. */
    method IsAllowedFormat(mimeType: string) returns (ok: bool)
      ensures ok <==> AllowedFormat(config.allowedFormats, mimeType)
    {
      var formats := config.allowedFormats;
      for i := 0 to |formats|
        invariant forall j :: 0 <= j < i ==> !HasPrefix(mimeType, formats[j])
      {
        if HasPrefix(mimeType, formats[i]) {
          return true;
        }
      }
      return false;
    }

    /** uploadToS3: one PutObject; on success the object's public URL. */
    method UploadToS3(data: Bytes, key: string, contentType: string, fault: Option<string>)
      returns (r: Result<string, UploadError>)
      modifies s3Client
      ensures s3Client.puts == old(s3Client.puts) + [PutObjectInput(config.s3Bucket, key, data, contentType)]
      ensures fault.Some? ==> r == Failure(PutFailed(fault.value))
      ensures fault.None? ==> r == Success(ObjectUrl(config.s3Bucket, key))
    {
      var err := s3Client.PutObject(PutObjectInput(config.s3Bucket, key, data, contentType), fault);
      if err.Some? {
        return Failure(PutFailed(err.value));
      }
      return Success(ObjectUrl(config.s3Bucket, key));
    }

    /** ProcessAndUpload. `file` is what reading the upload gave, `datePath` the
        formatted current date, `putFault` the storage backend's answer. */
    method ProcessAndUpload(file: Result<Bytes, string>, filename: string, kit: Toolkit,
                            datePath: string, putFault: Option<string>)
      returns (r: Result<ProcessedMedia, MediaError>)
      modifies s3Client
      ensures r == Ingest(config, kit, file, filename, datePath, putFault).result
      ensures s3Client.puts == old(s3Client.puts) + PutsOf(Ingest(config, kit, file, filename, datePath, putFault))
    {
      if file.Failure? {
        return Failure(ReadingFile(file.error));
      }
      var data := file.value;
      if |data| > config.maxFileSize {
        return Failure(FileTooLarge(|data|, config.maxFileSize));
      }
      var mimeType := kit.detect(data);
      var allowed := IsAllowedFormat(mimeType);
      if !allowed {
        return Failure(UnsupportedFormat(mimeType));
      }
      var processing := ProcessMedia(config, kit, data, mimeType);
      if processing.Failure? {
        return Failure(ProcessingMedia(processing.error));
      }
      var processed := processing.value;
      var hash := HexEncode(kit.sha256(processed));
      var key := StorageKey(datePath, hash, filename);
      var lookup := CheckFileExists(hash);
      // The stub never reports a stored object, so the early return of an existing
      // URL is unreachable.
      assert !lookup.found;
      var uploaded := UploadToS3(processed, key, mimeType, putFault);
      if uploaded.Failure? {
        return Failure(UploadingToS3(uploaded.error));
      }
      return Success(ProcessedMedia(uploaded.value, hash, mimeType, |processed|));
    }

    /** ValidateURL over the HEAD response. */
    method ValidateURL(head: HeadResponse) returns (err: Option<UrlError>)
      ensures err == CheckHead(config, head)
    {
      if head.HeadFailed? {
        return Some(CheckingURL(head.cause));
      }
      if head.status != 200 {
        return Some(InvalidStatus(head.status));
      }
      var allowed := IsAllowedFormat(head.contentType);
      if !allowed {
        return Some(UnsupportedContentType(head.contentType));
      }
      if head.contentLength > config.maxFileSize {
        return Some(UrlTooLarge(head.contentLength, config.maxFileSize));
      }
      return None;
    }

    /** ProcessURL, with the HEAD and GET responses and the temporary file's
        behaviour as inputs. */
    method ProcessURL(url: string, head: HeadResponse, download: Download, temp: TempFileFault,
                      kit: Toolkit, datePath: string, putFault: Option<string>)
      returns (r: Result<ProcessedMedia, MediaError>)
      modifies s3Client
      ensures r == IngestUrl(config, kit, url, head, download, temp, datePath, putFault).result
      ensures s3Client.puts ==
        old(s3Client.puts) + PutsOf(IngestUrl(config, kit, url, head, download, temp, datePath, putFault))
    {
      var invalid := ValidateURL(head);
      if invalid.Some? {
        return Failure(InvalidURL(invalid.value));
      }
      if download.GetFailed? {
        return Failure(Downloading(download.cause));
      }
      if download.BodyFailed? {
        return Failure(ReadingResponseBody(download.cause));
      }
      var data := download.data;
      match temp {
        case CreateFault(e) => return Failure(CreatingTempFile(e));
        case WriteFault(e) => return Failure(WritingTempFile(e));
        case SeekFault(e) => return Failure(SeekingTempFile(e));
        case NoTempFault =>
      }
      r := ProcessAndUpload(Success(data), Base(url), kit, datePath, putFault);
    }
  }

  // ---------------------------------------------------------------------------
  // Properties
  // ---------------------------------------------------------------------------

  /** A payload over the limit is refused with its size, before detection,
      processing or upload; one of exactly the limit passes the size check. */
  lemma SizeCheck(cfg: MediaConfig, kit: Toolkit, data: Bytes, filename: string, datePath: string, putFault: Option<string>)
    ensures var o := Ingest(cfg, kit, Success(data), filename, datePath, putFault);
      |data| > cfg.maxFileSize ==> o == Ingestion(Failure(FileTooLarge(|data|, cfg.maxFileSize)), None)
    ensures var o := Ingest(cfg, kit, Success(data), filename, datePath, putFault);
      |data| == cfg.maxFileSize ==> !(o.result.Failure? && o.result.error.FileTooLarge?)
  {
  }

  /** A detected type outside the allow-list is refused and nothing is uploaded,
      whatever the filename; an empty allow-list refuses everything. */
  lemma DisallowedTypeNeverUploaded(cfg: MediaConfig, kit: Toolkit, data: Bytes, datePath: string, putFault: Option<string>)
    requires |data| <= cfg.maxFileSize
    requires !AllowedFormat(cfg.allowedFormats, kit.detect(data))
    ensures forall filename :: (Ingest(cfg, kit, Success(data), filename, datePath, putFault)
      == Ingestion(Failure(UnsupportedFormat(kit.detect(data))), None))
  {
  }

  lemma EmptyAllowListRejectsAll(mimeType: string)
    ensures !AllowedFormat([], mimeType)
  {
  }

  /** Only images are ever changed: every other type, audio and video included, is
      passed on byte for byte. */
  lemma NonImagesPassThrough(cfg: MediaConfig, kit: Toolkit, data: Bytes, mimeType: string)
    requires !HasPrefix(mimeType, "image/")
    ensures ProcessMedia(cfg, kit, data, mimeType) == Success(data)
  {
  }

  /** An image within the bounding box is returned unchanged; one whose size cannot
      be read is an error. */
  lemma ImageRules(cfg: MediaConfig, kit: Toolkit, data: Bytes)
    ensures (kit.imageSize(data).Success? &&
      kit.imageSize(data).value.width <= cfg.imageMaxWidth &&
      kit.imageSize(data).value.height <= cfg.imageMaxHeight) ==>
      ProcessImage(cfg, kit, data) == Success(data)
    ensures kit.imageSize(data).Failure? ==>
      ProcessImage(cfg, kit, data) == Failure(GettingImageSize(kit.imageSize(data).error))
  {
  }

  /** What a successful ingestion reports: the lowercase hex SHA-256 of the processed
      bytes (64 characters), their length, the detected type, and the URL of the
      one object uploaded under `date/hash+ext`. */
  lemma SuccessDescriptor(cfg: MediaConfig, kit: Toolkit, data: Bytes, filename: string, datePath: string, putFault: Option<string>)
    requires Ingest(cfg, kit, Success(data), filename, datePath, putFault).result.Success?
    ensures var o := Ingest(cfg, kit, Success(data), filename, datePath, putFault);
      var pm := o.result.value;
      var mimeType := kit.detect(data);
      ProcessMedia(cfg, kit, data, mimeType).Success? &&
      var processed := ProcessMedia(cfg, kit, data, mimeType).value;
      var key := StorageKey(datePath, pm.hash, filename);
      pm.hash == HexEncode(kit.sha256(processed)) &&
      |pm.hash| == 64 && IsLowerHex(pm.hash) &&
      pm.size == |processed| &&
      pm.mimeType == mimeType &&
      pm.url == ObjectUrl(cfg.s3Bucket, key) &&
      o.put == Some(PutObjectInput(cfg.s3Bucket, key, processed, mimeType))
  {
  }

  /** Exactly one PutObject is issued when the payload passes the size, type and
      processing steps, and none otherwise; a failed PutObject yields an error and
      no descriptor. */
  lemma OneUploadPerAcceptedPayload(cfg: MediaConfig, kit: Toolkit, data: Bytes, filename: string, datePath: string, putFault: Option<string>)
    ensures var o := Ingest(cfg, kit, Success(data), filename, datePath, putFault);
      o.put.Some? <==>
        |data| <= cfg.maxFileSize &&
        AllowedFormat(cfg.allowedFormats, kit.detect(data)) &&
        ProcessMedia(cfg, kit, data, kit.detect(data)).Success?
    ensures var o := Ingest(cfg, kit, Success(data), filename, datePath, putFault);
      o.put.Some? && putFault.Some? ==> o.result == Failure(UploadingToS3(PutFailed(putFault.value)))
    ensures var o := Ingest(cfg, kit, Success(data), filename, datePath, putFault);
      o.put.Some? && putFault.None? ==> o.result.Success?
  {
  }

  /** Keys are content addresses: on the same day, two keys are equal only if the
      digests are. */
  lemma KeyDeterminesDigest(datePath: string, d1: Digest, d2: Digest, f1: string, f2: string)
    requires StorageKey(datePath, HexEncode(d1), f1) == StorageKey(datePath, HexEncode(d2), f2)
    ensures d1 == d2
  {
    var k1 := StorageKey(datePath, HexEncode(d1), f1);
    var k2 := StorageKey(datePath, HexEncode(d2), f2);
    var lo := |datePath| + 1;
    assert k1[lo..lo + 64] == HexEncode(d1);
    assert k2[lo..lo + 64] == HexEncode(d2);
    HexEncodeInjective(d1, d2);
  }

  /** ValidateURL's order: a non-200 status is reported whatever the headers; a
      disallowed type whatever the length; a length is refused only above the
      maximum, so an unknown length (-1) passes whenever the maximum is not
      negative. */
  lemma HeadCheckOrder(cfg: MediaConfig, status: int, contentType: string, length: int)
    ensures status != 200 ==> CheckHead(cfg, HeadOk(status, contentType, length)) == Some(InvalidStatus(status))
    ensures status == 200 && !AllowedFormat(cfg.allowedFormats, contentType) ==>
      CheckHead(cfg, HeadOk(status, contentType, length)) == Some(UnsupportedContentType(contentType))
    ensures status == 200 && AllowedFormat(cfg.allowedFormats, contentType) ==>
      (CheckHead(cfg, HeadOk(status, contentType, length)) == None <==> length <= cfg.maxFileSize)
    ensures status == 200 && AllowedFormat(cfg.allowedFormats, contentType) && cfg.maxFileSize >= 0 ==>
      CheckHead(cfg, HeadOk(status, contentType, -1)) == None
  {
  }

  /** A URL whose check fails is never downloaded or uploaded; and the downloaded
      body is checked again, so a body over the limit is refused even when the
      HEAD response passed (with an unknown length, say). */
  lemma UrlIngestionGuards(cfg: MediaConfig, kit: Toolkit, url: string, head: HeadResponse, download: Download,
                           temp: TempFileFault, datePath: string, putFault: Option<string>)
    ensures CheckHead(cfg, head).Some? ==>
      IngestUrl(cfg, kit, url, head, download, temp, datePath, putFault) ==
      Ingestion(Failure(InvalidURL(CheckHead(cfg, head).value)), None)
    ensures CheckHead(cfg, head).None? && download.Body? && temp.NoTempFault? && |download.data| > cfg.maxFileSize ==>
      IngestUrl(cfg, kit, url, head, download, temp, datePath, putFault) ==
      Ingestion(Failure(FileTooLarge(|download.data|, cfg.maxFileSize)), None)
  {
  }

  /** The object key of a downloaded file takes its extension from the last path
      element of the URL, query string included: a URL `dir/stem.ext` yields a key
      ending in `.ext` whenever `ext` holds no '.' or '/'. */
  lemma UrlKeyExtension(dir: string, name: string, stem: string, ext: string, datePath: string, hash: string)
    requires name == stem + "." + ext
    requires NoSlash(name) && '.' !in ext
    ensures StorageKey(datePath, hash, Base(dir + "/" + name)) == datePath + "/" + hash + "." + ext
  {
    assert NoSlash(ext) by {
      assert forall i :: 0 <= i < |ext| ==> ext[i] == name[|stem| + 1 + i];
    }
    BaseOfDirAndName(dir, name);
    ExtOfStemAndExtension(stem, ext);
  }
}
