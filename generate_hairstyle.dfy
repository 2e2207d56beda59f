/** The hairstyle synthesis endpoint: one attempt of the pipeline (hair
    removal and relighting, the five-way generation with selection, the
    transition GIF), the whole-run retry loop around it, and the request
    checks of `POST`. Every remote model call is an oracle of the
    `Backend`, answered by attempt number. */
module GenerateHairstyle {
  import opened Basics
  import opened Text
  import FaceMorph
  import ParallelGeneration

  const DefaultDimension := 400
  const NumGenerations := 5
  const DefaultMaxRetries := 2

  /** The validated inputs of one synthesis run. */
  datatype HairstyleInput = HairstyleInput(
    originalImage: Bytes,
    referenceImages: seq<Bytes>,
    widthValue: Option<int>,
    heightValue: Option<int>,
    durationMsValue: Option<int>)

  /** A run's result; `morphingGif` is `None` for the `null` GIF. */
  datatype HairstyleResult = HairstyleResult(generatedImage: Bytes, morphingGif: Option<Bytes>)

  datatype RemoveHairRequest = RemoveHairRequest(originalImage: Bytes, width: int, height: int)

  /** `imageToRelight` is `None` when there is no first reference image. */
  datatype RelightRequest = RelightRequest(imageToRelight: Option<Bytes>, referenceImage: Bytes, width: int, height: int)

  /** The remote services, each answering by attempt number: hair removal,
      relighting, which of the two rejects first when both fail, the
      generator and judge of the parallel step, and the renderer's world.
      `editPrompt` is the fixed instruction text sent to the generator. */
  datatype Backend = Backend(
    editPrompt: string,
    removeHair: (nat, RemoveHairRequest) -> Result<Bytes, Error>,
    relight: (nat, RelightRequest) -> Result<Bytes, Error>,
    relightRejectsFirst: nat -> bool,
    generate: nat -> ParallelGeneration.Generator,
    judge: nat -> ParallelGeneration.Judge,
    morph: nat -> FaceMorph.MorphEnv)

  /** `value || 400`: an absent or zero value takes the default. */
  function FinalDimension(v: Option<int>): (d: int)
    ensures v.None? || v == Some(0) ==> d == DefaultDimension
    ensures v.Some? && v.value != 0 ==> d == v.value
  {
    if v.None? || v.value == 0 then DefaultDimension else v.value
  }

  function RemoveHairRequestFor(input: HairstyleInput): RemoveHairRequest {
    RemoveHairRequest(input.originalImage, FinalDimension(input.widthValue), FinalDimension(input.heightValue))
  }

  /** Only `referenceImages[0]` is relit, against the original image. */
  function RelightRequestFor(input: HairstyleInput): (r: RelightRequest)
    ensures r.imageToRelight == (if input.referenceImages == [] then None else Some(input.referenceImages[0]))
    ensures r.referenceImage == input.originalImage
  {
    RelightRequest(if input.referenceImages == [] then None else Some(input.referenceImages[0]),
                   input.originalImage, FinalDimension(input.widthValue), FinalDimension(input.heightValue))
  }

  function ParallelRequestFor(input: HairstyleInput, backend: Backend, cleaned: Bytes, relit: Bytes): ParallelGeneration.ParallelRequest {
    ParallelGeneration.ParallelRequest(backend.editPrompt, cleaned, relit,
      Some(FinalDimension(input.widthValue)), Some(FinalDimension(input.heightValue)), Some(NumGenerations))
  }

  /** The renderer's arguments: original to generated image, the final
      size, and a duration only when `durationMsValue` is truthy. */
  function MorphRequestFor(input: HairstyleInput, generated: Bytes): (m: FaceMorph.MorphRequest)
    ensures m.fromImage == Some(input.originalImage) && m.toImage == Some(generated)
    ensures m.width == FaceMorph.Finite(FinalDimension(input.widthValue) as real)
            && m.height == FaceMorph.Finite(FinalDimension(input.heightValue) as real)
    ensures m.durationMs.Some? <==> input.durationMsValue.Some? && input.durationMsValue.value != 0
    ensures m.durationMs.Some? ==> m.durationMs == input.durationMsValue
  {
    FaceMorph.MorphRequest(Some(input.originalImage), Some(generated),
      FaceMorph.Finite(FinalDimension(input.widthValue) as real),
      FaceMorph.Finite(FinalDimension(input.heightValue) as real),
      if input.durationMsValue.Some? && input.durationMsValue.value != 0 then input.durationMsValue else None)
  }

  /** Hair removal's answer in attempt `attempt`. */
  function Cleaned(input: HairstyleInput, backend: Backend, attempt: nat): Result<Bytes, Error> {
    backend.removeHair(attempt, RemoveHairRequestFor(input))
  }

  /** Relighting's answer in attempt `attempt`. */
  function Relit(input: HairstyleInput, backend: Backend, attempt: nat): Result<Bytes, Error> {
    backend.relight(attempt, RelightRequestFor(input))
  }

  /** The parallel generation's answer in attempt `attempt`, given the two
      pre-processed images. */
  function Generated(input: HairstyleInput, backend: Backend, attempt: nat, cleaned: Bytes, relit: Bytes): Result<Bytes, Error> {
    ParallelGeneration.GenerateImageWithReferenceParallel(ParallelRequestFor(input, backend, cleaned, relit),
                                                          backend.generate(attempt), backend.judge(attempt))
  }

  /** `generateHairstyle`, attempt `attempt`: the pre-processing pair fails
      as `Promise.all` does (with the rejection that settles first), a
      generation failure fails the attempt with its error, and a renderer
      failure only turns the GIF into `null`. */
  function GenerateHairstyle(input: HairstyleInput, backend: Backend, attempt: nat): (r: Result<HairstyleResult, Error>)
    ensures Cleaned(input, backend, attempt).Failure? && Relit(input, backend, attempt).Failure? ==>
              r == Failure(if backend.relightRejectsFirst(attempt) then Relit(input, backend, attempt).error
                           else Cleaned(input, backend, attempt).error)
    ensures Cleaned(input, backend, attempt).Failure? && Relit(input, backend, attempt).Success? ==>
              r == Failure(Cleaned(input, backend, attempt).error)
    ensures Cleaned(input, backend, attempt).Success? && Relit(input, backend, attempt).Failure? ==>
              r == Failure(Relit(input, backend, attempt).error)
    ensures Cleaned(input, backend, attempt).Success? && Relit(input, backend, attempt).Success? ==>
              var generated := Generated(input, backend, attempt, Cleaned(input, backend, attempt).value,
                                         Relit(input, backend, attempt).value);
              (generated.Failure? ==> r == Failure(generated.error))
              && (generated.Success? ==> r.Success? && r.value.generatedImage == generated.value)
    ensures r.Success? ==> Cleaned(input, backend, attempt).Success? && Relit(input, backend, attempt).Success?
                           && Generated(input, backend, attempt, Cleaned(input, backend, attempt).value,
                                        Relit(input, backend, attempt).value) == Success(r.value.generatedImage)
    ensures r.Success? ==>
              var gif := FaceMorph.MorphResult(MorphRequestFor(input, r.value.generatedImage), backend.morph(attempt));
              (r.value.morphingGif.None? <==> gif.Failure?)
              && (gif.Success? ==> r.value.morphingGif == Some(gif.value))
  {
    var cleaned := Cleaned(input, backend, attempt);
    var relit := Relit(input, backend, attempt);
    if cleaned.Failure? && relit.Failure? then
      Failure(if backend.relightRejectsFirst(attempt) then relit.error else cleaned.error)
    else if cleaned.Failure? then Failure(cleaned.error)
    else if relit.Failure? then Failure(relit.error)
    else
      var generated := Generated(input, backend, attempt, cleaned.value, relit.value);
      match generated
      case Failure(e) => Failure(e)
      case Success(image) =>
        var gif := FaceMorph.MorphResult(MorphRequestFor(input, image), backend.morph(attempt));
        Success(HairstyleResult(image, if gif.Success? then Some(gif.value) else None))
  }

  /** The renderer never decides whether an attempt succeeds, nor which
      image it produces: two backends that differ only in the renderer
      agree on both. */
  lemma MorphNeverFailsTheRun(input: HairstyleInput, backend1: Backend, backend2: Backend, attempt: nat)
    requires backend2 == backend1.(morph := backend2.morph)
    ensures GenerateHairstyle(input, backend1, attempt).Success? == GenerateHairstyle(input, backend2, attempt).Success?
    ensures GenerateHairstyle(input, backend1, attempt).Success? ==>
              GenerateHairstyle(input, backend1, attempt).value.generatedImage
                == GenerateHairstyle(input, backend2, attempt).value.generatedImage
  {
  }

  /** Only the first reference image is used: inputs that agree on it
      (and on everything else) give the same attempt. */
  lemma OnlyFirstReferenceUsed(input: HairstyleInput, others: seq<Bytes>, backend: Backend, attempt: nat)
    requires input.referenceImages != []
    ensures GenerateHairstyle(input.(referenceImages := input.referenceImages[..1] + others), backend, attempt)
            == GenerateHairstyle(input, backend, attempt)
  {
    var input2 := input.(referenceImages := input.referenceImages[..1] + others);
    assert RelightRequestFor(input2) == RelightRequestFor(input);
    assert RemoveHairRequestFor(input2) == RemoveHairRequestFor(input);
    assert ParallelRequestFor(input2, backend, [], []).width == ParallelRequestFor(input, backend, [], []).width;
    forall image: Bytes ensures MorphRequestFor(input2, image) == MorphRequestFor(input, image) {
    }
  }

  /** Absent dimensions are 400 x 400 in every remote request. */
  lemma AbsentDimensionsDefault(input: HairstyleInput, backend: Backend, cleaned: Bytes, relit: Bytes, generated: Bytes)
    requires input.widthValue.None? && input.heightValue.None?
    ensures RemoveHairRequestFor(input).width == 400 && RemoveHairRequestFor(input).height == 400
    ensures RelightRequestFor(input).width == 400 && RelightRequestFor(input).height == 400
    ensures ParallelRequestFor(input, backend, cleaned, relit).width == Some(400)
            && ParallelRequestFor(input, backend, cleaned, relit).height == Some(400)
    ensures MorphRequestFor(input, generated).width == FaceMorph.Finite(400.0)
            && MorphRequestFor(input, generated).height == FaceMorph.Finite(400.0)
  {
  }

  /** What `generateHairstyleWithRetry` throws: the last attempt's error,
      or `undefined` when no attempt was made. */
  datatype Raised = Raised(error: Error) | Undefined

  /** `generateHairstyleWithRetry`: attempts 1, 2, ... up to `maxRetries`,
      returning the first success and rethrowing after the last failure. */
  method GenerateHairstyleWithRetry(input: HairstyleInput, backend: Backend, maxRetries: int)
    returns (r: Result<HairstyleResult, Raised>, attempts: nat)
    ensures attempts <= (if maxRetries < 0 then 0 else maxRetries)
    ensures forall a :: 1 <= a < attempts ==> GenerateHairstyle(input, backend, a).Failure?
    ensures r.Success? ==> attempts >= 1 && GenerateHairstyle(input, backend, attempts) == Success(r.value)
    ensures r.Failure? ==> attempts == (if maxRetries < 0 then 0 else maxRetries)
    ensures r.Failure? && attempts >= 1 ==>
              GenerateHairstyle(input, backend, attempts).Failure?
              && r.error == Raised(GenerateHairstyle(input, backend, attempts).error)
    ensures r.Failure? && attempts == 0 ==> r.error == Undefined
  {
    var lastError: Option<Error> := None;
    attempts := 0;
    var attempt := 1;
    while attempt <= maxRetries
      invariant 1 <= attempt && attempts == attempt - 1
      invariant attempt == 1 || attempt <= maxRetries
      invariant forall a :: 1 <= a < attempt ==> GenerateHairstyle(input, backend, a).Failure?
      invariant lastError.None? <==> attempt == 1
      decreases maxRetries - attempt
    {
      attempts := attempt;
      var outcome := GenerateHairstyle(input, backend, attempt);
      if outcome.Success? {
        return Success(outcome.value), attempts;
      }
      lastError := Some(outcome.error);
      if attempt == maxRetries {
        return Failure(Raised(lastError.value)), attempts;
      }
      attempt := attempt + 1;
    }
    r := Failure(if lastError.Some? then Raised(lastError.value) else Undefined);
  }

  /** A multipart form field. */
  datatype FormValue = FileValue(content: Bytes) | TextValue(text: string)

  /** `value.toString()`: a file prints as "[object File]". */
  function FormString(v: FormValue): string {
    if v.FileValue? then "[object File]" else v.text
  }

  datatype FormData = FormData(entries: seq<(string, FormValue)>)

  /** `formData.getAll(name).filter(v => v instanceof File)`, as contents. */
  function FilesUnder(form: FormData, name: string): (files: seq<Bytes>)
    ensures forall f :: f in files <==> exists i :: 0 <= i < |form.entries| && form.entries[i] == (name, FileValue(f))
    decreases |form.entries|
  {
    if form.entries == [] then []
    else
      var rest := FilesUnder(FormData(form.entries[1..]), name);
      assert forall i :: 1 <= i < |form.entries| ==> form.entries[i] == form.entries[1..][i - 1];
      if form.entries[0].0 == name && form.entries[0].1.FileValue? then [form.entries[0].1.content] + rest else rest
  }

  /** The files under a name come in form order, each entry contributing
      its own file once: the files of a form split in two are those of the
      first part followed by those of the second. */
  lemma {:induction false} FilesUnderAppend(a: seq<(string, FormValue)>, b: seq<(string, FormValue)>, name: string)
    ensures FilesUnder(FormData(a + b), name) == FilesUnder(FormData(a), name) + FilesUnder(FormData(b), name)
    ensures |a| == 1 ==>
              FilesUnder(FormData(a), name) == (if a[0].0 == name && a[0].1.FileValue? then [a[0].1.content] else [])
  {
    if a == [] {
      assert a + b == b;
    } else {
      assert (a + b)[1..] == a[1..] + b;
      FilesUnderAppend(a[1..], b, name);
    }
  }

  /** The body of the reply; `Ok` carries the images before their data-URL
      encoding. */
  datatype Response = Ok(generatedImage: Bytes, morphingGif: Option<Bytes>) | BadRequest(message: string) | InternalError

  const MultipartType: string := "multipart/form-data"
  const ContentTypeMessage: string := "Content-Type must be multipart/form-data"
  const OriginalImageMessage: string := "Field \"originalImage\" is required and must be a file"
  const ReferenceImagesMessage: string := "At least one \"referenceImages\" file is required"
  const DurationMessage: string := "Field \"durationMs\" must be a positive number"
  const WidthMessage: string := "Field \"width\" must be a positive number"
  const HeightMessage: string := "Field \"height\" must be a positive number"

  /** An optional numeric field: absent, or `parseInt` to a positive value. */
  datatype FieldCheck = Absent | Valid(value: int) | Invalid

  function CheckPositive(v: Option<FormValue>): (c: FieldCheck)
    ensures v.None? <==> c.Absent?
    ensures c.Valid? ==> c.value > 0 && ParseInt(FormString(v.value)) == Some(c.value)
    ensures v.Some? ==> (c.Invalid? <==> ParseInt(FormString(v.value)).None? || ParseInt(FormString(v.value)).value <= 0)
  {
    if v.None? then Absent
    else
      var parsed := ParseInt(FormString(v.value));
      if parsed.None? || parsed.value <= 0 then Invalid else Valid(parsed.value)
  }

  function ValueOf(c: FieldCheck): Option<int> {
    if c.Valid? then Some(c.value) else None
  }

  /** A form file sent as a numeric field never parses: "[object File]"
      has no leading digit. */
  lemma FileFieldRejected(b: Bytes)
    ensures CheckPositive(Some(FileValue(b))) == Invalid
  {
    assert FormString(FileValue(b))[0] == '[';
  }

  /** `parseInt` keeps a leading integer: "12px" is 12. */
  lemma UnitSuffixAccepted()
    ensures CheckPositive(Some(TextValue("12px"))) == Valid(12)
  {
    assert DecimalValue("12") == 12 by {
      assert "12"[..1] == "1";
    }
    assert ParseInt("12px") == Some(12) by {
      assert "12px" == "" + "" + "12" + "px";
      ParseIntLeadingInteger("", "", "12", "px");
    }
  }

  /** A sign and leading white space do not change that: " +12px" is 12. */
  lemma SignedUnitSuffixAccepted()
    ensures CheckPositive(Some(TextValue(" +12px"))) == Valid(12)
  {
    assert DecimalValue("12") == 12 by {
      assert "12"[..1] == "1";
    }
    assert ParseInt(" +12px") == Some(12) by {
      assert " +12px" == " " + "+" + "12" + "px";
      assert IsJsWhitespace(" "[0]);
      ParseIntLeadingInteger(" ", "+", "12", "px");
    }
  }

  /** The content type names a multipart form, in any letter case. */
  predicate IsMultipart(contentType: Option<string>) {
    Contains(ToLower(contentType.GetOr("")), MultipartType)
  }

  /** `v instanceof File`. */
  predicate IsFile(v: Option<FormValue>) {
    v.Some? && v.value.FileValue?
  }

  /** The optional numeric field `name` of a form, checked. */
  function Field(form: FormData, name: string): FieldCheck {
    CheckPositive(FirstValue(form.entries, name))
  }

  /** The request passed every check before the numeric fields. */
  predicate ReachesFields(contentType: Option<string>, body: Option<FormData>) {
    IsMultipart(contentType) && body.Some?
    && IsFile(FirstValue(body.value.entries, "originalImage"))
    && FilesUnder(body.value, "referenceImages") != []
  }

  /** The checks of `POST` in their order: the content type, the body, the
      original image, the reference images, then `durationMs`, `width` and
      `height`; the first that fails gives the early reply, and a request
      that passes them all is accepted with the values they read. */
  function ValidatePost(contentType: Option<string>, body: Option<FormData>): (r: Result<HairstyleInput, Response>)
    ensures !IsMultipart(contentType) <==> r == Failure(BadRequest(ContentTypeMessage))
    ensures IsMultipart(contentType) && body.None? ==> r == Failure(InternalError)
    ensures IsMultipart(contentType) && body.Some? && !IsFile(FirstValue(body.value.entries, "originalImage")) ==>
              r == Failure(BadRequest(OriginalImageMessage))
    ensures IsMultipart(contentType) && body.Some? && IsFile(FirstValue(body.value.entries, "originalImage"))
            && FilesUnder(body.value, "referenceImages") == [] ==>
              r == Failure(BadRequest(ReferenceImagesMessage))
    ensures ReachesFields(contentType, body) && Field(body.value, "durationMs").Invalid? ==>
              r == Failure(BadRequest(DurationMessage))
    ensures ReachesFields(contentType, body) && !Field(body.value, "durationMs").Invalid?
            && Field(body.value, "width").Invalid? ==>
              r == Failure(BadRequest(WidthMessage))
    ensures ReachesFields(contentType, body) && !Field(body.value, "durationMs").Invalid?
            && !Field(body.value, "width").Invalid? && Field(body.value, "height").Invalid? ==>
              r == Failure(BadRequest(HeightMessage))
    ensures ReachesFields(contentType, body) && !Field(body.value, "durationMs").Invalid?
            && !Field(body.value, "width").Invalid? && !Field(body.value, "height").Invalid? ==>
              r.Success?
    ensures r.Success? ==> body.Some?
                           && FirstValue(body.value.entries, "originalImage") == Some(FileValue(r.value.originalImage))
                           && r.value.referenceImages == FilesUnder(body.value, "referenceImages") != []
    ensures r.Success? ==> ValueOf(Field(body.value, "durationMs")) == r.value.durationMsValue
                           && ValueOf(Field(body.value, "width")) == r.value.widthValue
                           && ValueOf(Field(body.value, "height")) == r.value.heightValue
    ensures r.Success? ==> (r.value.widthValue.None? || r.value.widthValue.value > 0)
                           && (r.value.heightValue.None? || r.value.heightValue.value > 0)
                           && (r.value.durationMsValue.None? || r.value.durationMsValue.value > 0)
    ensures r.Failure? ==> r.error.BadRequest? || r.error.InternalError?
  {
    if !IsMultipart(contentType) then Failure(BadRequest(ContentTypeMessage))
    else if body.None? then Failure(InternalError)
    else
      var form := body.value;
      var original := FirstValue(form.entries, "originalImage");
      if !IsFile(original) then Failure(BadRequest(OriginalImageMessage))
      else
        var references := FilesUnder(form, "referenceImages");
        if references == [] then Failure(BadRequest(ReferenceImagesMessage))
        else
          var duration := Field(form, "durationMs");
          var width := Field(form, "width");
          var height := Field(form, "height");
          if duration.Invalid? then Failure(BadRequest(DurationMessage))
          else if width.Invalid? then Failure(BadRequest(WidthMessage))
          else if height.Invalid? then Failure(BadRequest(HeightMessage))
          else Success(HairstyleInput(original.value.content, references,
                                      ValueOf(width), ValueOf(height), ValueOf(duration)))
  }

  /** The content type is compared without regard to letter case. */
  lemma ContentTypeIgnoresCase(ct1: string, ct2: string, body: Option<FormData>)
    requires ToLower(ct1) == ToLower(ct2)
    ensures ValidatePost(Some(ct1), body) == ValidatePost(Some(ct2), body)
  {
  }

  /** A validated request's dimensions reach every remote call unchanged;
      only an absent one becomes 400. */
  lemma ValidatedDimensionsKept(contentType: Option<string>, body: Option<FormData>)
    requires ValidatePost(contentType, body).Success?
    ensures var input := ValidatePost(contentType, body).value;
            FinalDimension(input.widthValue) == input.widthValue.GetOr(DefaultDimension)
            && FinalDimension(input.heightValue) == input.heightValue.GetOr(DefaultDimension)
  {
  }

  /** The reply for a run's result: the GIF is dropped when it is absent or
      empty (its base64 text would be the falsy ""). */
  function ToResponse(result: HairstyleResult): (resp: Response)
    ensures resp.Ok? && resp.generatedImage == result.generatedImage
    ensures resp.morphingGif.Some? <==> result.morphingGif.Some? && result.morphingGif.value != []
    ensures resp.morphingGif.Some? ==> resp.morphingGif == result.morphingGif
  {
    Ok(result.generatedImage,
       if result.morphingGif.Some? && result.morphingGif.value != [] then result.morphingGif else None)
  }

  /** The checks at the head of `POST`, as the handler performs them:
      early replies, then the optional fields parsed into local values. */
  method CheckRequest(contentType: Option<string>, body: Option<FormData>)
    returns (checked: Result<HairstyleInput, Response>)
    ensures checked == ValidatePost(contentType, body)
  {
    if !Contains(ToLower(contentType.GetOr("")), MultipartType) {
      assert !IsMultipart(contentType);
      return Failure(BadRequest(ContentTypeMessage));
    }
    if body.None? {
      return Failure(InternalError);
    }
    var form := body.value;

    var originalImage := FirstValue(form.entries, "originalImage");
    if !(originalImage.Some? && originalImage.value.FileValue?) {
      return Failure(BadRequest(OriginalImageMessage));
    }

    var referenceImages := FilesUnder(form, "referenceImages");
    if |referenceImages| == 0 {
      return Failure(BadRequest(ReferenceImagesMessage));
    }

    var durationMs := FirstValue(form.entries, "durationMs");
    var durationMsValue: Option<int> := None;
    if durationMs.Some? {
      var parsedDuration := ParseInt(FormString(durationMs.value));
      if parsedDuration.None? || parsedDuration.value <= 0 {
        assert Field(form, "durationMs").Invalid?;
        return Failure(BadRequest(DurationMessage));
      }
      durationMsValue := parsedDuration;
    }
    assert !Field(form, "durationMs").Invalid? && durationMsValue == ValueOf(Field(form, "durationMs"));

    var width := FirstValue(form.entries, "width");
    var height := FirstValue(form.entries, "height");
    var widthValue: Option<int> := None;
    var heightValue: Option<int> := None;

    if width.Some? {
      var parsedWidth := ParseInt(FormString(width.value));
      if parsedWidth.None? || parsedWidth.value <= 0 {
        assert Field(form, "width").Invalid?;
        return Failure(BadRequest(WidthMessage));
      }
      widthValue := parsedWidth;
    }
    assert !Field(form, "width").Invalid? && widthValue == ValueOf(Field(form, "width"));

    if height.Some? {
      var parsedHeight := ParseInt(FormString(height.value));
      if parsedHeight.None? || parsedHeight.value <= 0 {
        assert Field(form, "height").Invalid?;
        return Failure(BadRequest(HeightMessage));
      }
      heightValue := parsedHeight;
    }
    assert !Field(form, "height").Invalid? && heightValue == ValueOf(Field(form, "height"));

    checked := Success(HairstyleInput(originalImage.value.content, referenceImages, widthValue, heightValue, durationMsValue));
  }

  /** `POST`: the early checks, each answered before any generation, then
      the retried run with two attempts; a run that fails is a 500. */
  method Post(contentType: Option<string>, body: Option<FormData>, backend: Backend)
    returns (resp: Response, attempts: nat)
    ensures ValidatePost(contentType, body).Failure? ==>
              resp == ValidatePost(contentType, body).error && attempts == 0
    ensures ValidatePost(contentType, body).Success? ==>
              var input := ValidatePost(contentType, body).value;
              1 <= attempts <= DefaultMaxRetries
              && (forall a :: 1 <= a < attempts ==> GenerateHairstyle(input, backend, a).Failure?)
              && (resp.Ok? ==> GenerateHairstyle(input, backend, attempts).Success?
                               && resp == ToResponse(GenerateHairstyle(input, backend, attempts).value))
              && (!resp.Ok? ==> resp == InternalError && attempts == DefaultMaxRetries
                                && GenerateHairstyle(input, backend, attempts).Failure?)
  {
    var checked := CheckRequest(contentType, body);
    if checked.Failure? {
      return checked.error, 0;
    }
    var result;
    result, attempts := GenerateHairstyleWithRetry(checked.value, backend, DefaultMaxRetries);
    if result.Failure? {
      return InternalError, attempts;
    }
    resp := ToResponse(result.value);
  }
}
