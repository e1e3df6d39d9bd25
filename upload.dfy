/**
 * The upload route (app/api/upload/route.ts): three admission checks run in
 * order, the local file name built from a unique suffix and the uploaded
 * file's name, and the URL handed back. The storage calls themselves (Vercel
 * Blob `put`, `mkdir`, `writeFile`) are outside the model: the blob URL is a
 * parameter, and so are the clock and the random number of the suffix.
 */
module Upload {
  import opened Common
  import opened Text
  import opened Checks

  /** The form's `file` entry: its name, MIME type and size in bytes. */
  datatype UploadFile = UploadFile(name: string, mimeType: string, size: nat)

  /** The JSON answer: an error message with its status, or `{ url }`. */
  datatype UploadResult = Rejected(response: Response) | Uploaded(url: string)

  const MaxUploadBytes: nat := 5 * 1024 * 1024

  const NoFile := Response(400, "No file uploaded")
  const NotAnImage := Response(400, "File must be an image")
  const TooLarge := Response(400, "File size must be less than 5MB")
  /** The `catch` of the handler: the blob `put` or the local `writeFile` threw. */
  const UploadFailed := Response(500, "Upload failed")

  /** The admission checks in the order the handler runs them. */
  function Admission(file: Option<UploadFile>): (cs: seq<Check<Response>>)
    ensures |cs| == 3
    ensures FirstFailure(cs).None? <==>
      file.Some? && StartsWith(file.value.mimeType, "image/") && file.value.size <= MaxUploadBytes
  {
    var cs := [
      Check(file.Some?, NoFile),
      Check(file.Some? && StartsWith(file.value.mimeType, "image/"), NotAnImage),
      Check(file.Some? && file.value.size <= MaxUploadBytes, TooLarge)
    ];
    assert (forall j | 0 <= j < 3 :: cs[j].passes) <==> cs[0].passes && cs[1].passes && cs[2].passes;
    cs
  }

  /** The size bound is inclusive: an image of exactly 5 MiB is admitted, one byte more is not. */
  lemma FiveMebibytesAdmitted(name: string, mimeType: string)
    requires StartsWith(mimeType, "image/")
    ensures FirstFailure(Admission(Some(UploadFile(name, mimeType, MaxUploadBytes)))).None?
    ensures FirstFailure(Admission(Some(UploadFile(name, mimeType, MaxUploadBytes + 1)))) == Some(TooLarge)
  {
    FailureDecides(Admission(Some(UploadFile(name, mimeType, MaxUploadBytes + 1))), 2);
  }

  /** A file that is not an image is refused for its type, whatever its size. */
  lemma TypeIsCheckedBeforeSize(f: UploadFile)
    requires !StartsWith(f.mimeType, "image/")
    ensures FirstFailure(Admission(Some(f))) == Some(NotAnImage)
  {
    FailureDecides(Admission(Some(f)), 1);
  }

  /** Decimal digits of `n`, as a template literal prints an integer. */
  function Decimal(n: nat): (r: string)
    ensures |r| >= 1
    ensures forall i | 0 <= i < |r| :: '0' <= r[i] <= '9'
  {
    var d := ['0' + (n % 10) as char];
    if n < 10 then d else Decimal(n / 10) + d
  }

  /** `${Date.now()}-${Math.round(Math.random() * 1e9)}`, with the clock and
      the rounded random number as parameters. */
  function UniqueSuffix(now: nat, random: nat): (r: string)
    ensures NoSpace(r)
  {
    var r := Decimal(now) + "-" + Decimal(random);
    assert forall i | 0 <= i < |r| :: r[i] == '-' || '0' <= r[i] <= '9';
    r
  }

  /** `${uniqueSuffix}-${file.name.replace(/\s/g, "-")}`: the suffix, a dash,
      and the original name with every whitespace character turned into a
      dash, so the name keeps its length and loses its whitespace. */
  function LocalFileName(suffix: string, name: string): (r: string)
    ensures |r| == |suffix| + 1 + |name|
    ensures r[..|suffix| + 1] == suffix + "-"
    ensures NoSpace(r[|suffix| + 1..])
    ensures forall i | 0 <= i < |name| ::
      r[|suffix| + 1 + i] == (if IsSpace(name[i]) then '-' else name[i])
  {
    var r := suffix + "-" + ReplaceWhitespace(name);
    assert r[..|suffix| + 1] == suffix + "-";
    assert r[|suffix| + 1..] == ReplaceWhitespace(name);
    r
  }

  /** With the suffix the handler builds, the whole file name is free of whitespace. */
  lemma {:induction false} LocalFileNameHasNoSpace(now: nat, random: nat, name: string)
    ensures NoSpace(LocalFileName(UniqueSuffix(now, random), name))
  {
    var suffix := UniqueSuffix(now, random);
    var r := LocalFileName(suffix, name);
    forall i | 0 <= i < |r| ensures !IsSpace(r[i]) {
      if i < |suffix| {
        assert r[i] == (suffix + "-")[i] == suffix[i];
      } else if i == |suffix| {
        assert r[i] == (suffix + "-")[i] == '-';
      } else {
        assert r[i] == r[|suffix| + 1..][i - |suffix| - 1];
      }
    }
  }

  /** `POST`: the first failing admission check answers; otherwise the file
      goes to blob storage when a blob token is configured (the URL is the
      one storage returns), and else to the local uploads folder, whose
      public URL is "/uploads/" followed by the file name. `stored` says
      whether that storage call completed; when it threw, the handler's
      `catch` answers 500. */
  method Post(file: Option<UploadFile>, blobToken: Option<string>, blobUrl: string, now: nat, random: nat,
              stored: bool)
    returns (result: UploadResult)
    ensures var refusal := FirstFailure(Admission(file));
      if refusal.Some? then result == Rejected(refusal.value)
      else if !stored then result == Rejected(UploadFailed)
      else if Truthy(blobToken) then result == Uploaded(blobUrl)
      else result == Uploaded("/uploads/" + LocalFileName(UniqueSuffix(now, random), file.value.name))
  {
    ghost var cs := Admission(file);
    if file.None? {
      FailureDecides(cs, 0);
      return Rejected(NoFile);
    }
    if !StartsWith(file.value.mimeType, "image/") {
      FailureDecides(cs, 1);
      return Rejected(NotAnImage);
    }
    if file.value.size > MaxUploadBytes {
      FailureDecides(cs, 2);
      return Rejected(TooLarge);
    }
    if !stored {
      return Rejected(UploadFailed);
    }
    var url := "";
    if Truthy(blobToken) {
      url := blobUrl;
    } else {
      var uniqueSuffix := UniqueSuffix(now, random);
      var filename := LocalFileName(uniqueSuffix, file.value.name);
      url := "/uploads/" + filename;
    }
    result := Uploaded(url);
  }
}
