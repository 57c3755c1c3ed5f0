/**
 * The upload route `upload_and_generate_tests_route` and its filename check
 * `allowed_file`, as one decision function over an abstract request and the
 * outcomes of the later stages.
 *
 * The route validates the request (file part, non-empty filename, truthy
 * `uploadType`, allowed extension) with early 400 answers, then takes the
 * extraction outcome, builds the prompt from the raw form values, cleans the
 * model's reply and answers 200 with the script, or 400/500 on the way.
 * `secure_filename` is an opaque given function, the extraction step is a
 * given outcome, and the model call is a given function from prompt to reply.
 */
module App {
  import opened Wrappers
  import opened PyStr
  import PyPath
  import PromptBuilder
  import LlmService
  import FileProcessor

  /** The extensions the upload check accepts. */
  const AllowedExtensions: set<string> := {"txt", "py", "js", "java", "cs", "go", "rb", "ts", "zip", "jsx", "tsx"}

  const NoFilePart: string := "No file part in the request"
  const NoFileSelected: string := "No file selected for upload"
  const MissingUploadType: string := "Missing 'uploadType' in form data"
  const TypeNotAllowed: string := "File type not allowed"
  const ExtractionFailed: string := "Failed to process or extract code from file. Check file_processor.py logs or file content."
  const LlmFailed: string := "LLM failed to generate script or returned empty. Check llm_service.py logs."
  const InternalError: string := "An unexpected internal server error occurred. Please check backend logs."

  /** The 400 message for a zip in which no code was found, naming the sanitised filename. */
  function NoCodeInZip(filename: string): string {
    "No recognized code files were found inside '" + filename + "'. Please ensure your zip contains supported file types."
  }

  /** The success message, naming the sanitised filename. */
  function SuccessMessage(filename: string): string {
    "Successfully processed '" + filename + "' and generated tests."
  }

  /** An extension passes when its lower-cased form is in the allowed set. */
  predicate AllowedExtension(ext: string) {
    Lower(ext) in AllowedExtensions
  }

  /** `allowed_file`: there is a dot, and the text after the last one, lower-cased, is allowed. */
  predicate AllowedFile(filename: string)
    ensures AllowedFile(filename) ==> '.' in filename && RFind(filename, '.') + 3 <= |filename|
  {
    '.' in filename && AllowedExtension(filename[RFind(filename, '.') + 1..])
  }

  /** The module name: the sanitised filename without its final extension. */
  function ModuleName(filename: string): (r: string)
    ensures |r| <= |filename| && filename[..|r|] == r
  {
    var parts := PyPath.SplitExt(filename);
    assert filename[..|parts.0|] == parts.0;
    parts.0
  }

  // ---------------------------------------------------------------------------
  // The request, the stage outcomes and the response

  /**
   * The request: the filename of the `file` part if there is one, and the
   * form fields `uploadType`, `language`, `framework` and `instructions`
   * where present.
   */
  datatype Request = Request(
    file: Option<string>,
    uploadType: Option<string>,
    language: Option<string>,
    framework: Option<string>,
    instructions: Option<string>)

  /** An exception reaching the route's handlers. */
  datatype Raised = ValueError(message: string) | OtherException

  /**
   * The extraction step: code (possibly `None`) with the path to clean up,
   * or an exception.
   */
  datatype ExtractStage =
    | Extracted(code: Option<string>, cleanupPath: Option<string>)
    | ExtractionRaised(error: Raised)

  /** The JSON body: an error, or the success message with its data. */
  datatype Body =
    | Error(error: string)
    | Success(message: string, generatedScript: string, originalFilename: string, uploadType: string)

  /** The answer, with the prompt sent to the model if the route got that far. */
  datatype Response = Response(status: int, body: Body, sentPrompt: Option<string>)

  /** The validation answer: the first failed check's message, if any. */
  function Validate(req: Request): (r: Option<string>)
    ensures r.None? <==> && req.file.Some? && req.file.value != ""
                         && Truthy(req.uploadType) && AllowedFile(req.file.value)
  {
    if req.file.None? then Some(NoFilePart)
    else if req.file.value == "" then Some(NoFileSelected)
    else if !Truthy(req.uploadType) then Some(MissingUploadType)
    else if !AllowedFile(req.file.value) then Some(TypeNotAllowed)
    else None
  }

  /** The prompt the route sends: the raw form values, with the builder's defaults when absent. */
  function SentPrompt(req: Request, code: string, filename: string): (r: string)
    ensures |code| + 10 < |r|
  {
    PromptBuilder.ConstructPrompt(code, ModuleName(filename),
                                  req.language.GetOr(PromptBuilder.DefaultLanguage),
                                  req.framework.GetOr(PromptBuilder.DefaultFramework),
                                  req.instructions)
  }

  /** `upload_and_generate_tests_route`. */
  function HandleUpload(req: Request, secureFilename: string -> string, extraction: ExtractStage,
                        chat: string -> LlmService.ChatResult): (r: Response)
    ensures r.status in {200, 400, 500}
    ensures r.status == 200 <==> r.body.Success?
    ensures r.sentPrompt.Some? ==> Validate(req).None?
  {
    var invalid := Validate(req);
    if invalid.Some? then Response(400, Error(invalid.value), None)
    else
      var filename := secureFilename(req.file.value);
      var uploadType := req.uploadType.value;
      match extraction
      case ExtractionRaised(ValueError(message)) => Response(400, Error(message), None)
      case ExtractionRaised(OtherException) => Response(500, Error(InternalError), None)
      case Extracted(code, _) =>
        if code.None? then Response(500, Error(ExtractionFailed), None)
        else if Strip(code.value) == "" && uploadType == "zip" then Response(400, Error(NoCodeInZip(filename)), None)
        else
          var prompt := SentPrompt(req, code.value, filename);
          var script := LlmService.CleanReply(chat(prompt));
          if !Truthy(script) then Response(500, Error(LlmFailed), Some(prompt))
          else Response(200, Success(SuccessMessage(filename), script.value, filename, uploadType), Some(prompt))
  }

  /**
   * The outcome of `process_file_upload` as the route's extraction step: the
   * code and the saved path to clean up, or the `ValueError` with its message.
   */
  function FromProcessUpload(e: FileProcessor.Extraction): (r: ExtractStage)
    ensures r.Extracted? <==> e.Extracted?
    ensures e.Extracted? ==> r.code == Some(e.code) && r.cleanupPath == Some(e.path)
    ensures e.ValueError? ==> r.error == ValueError(e.message)
  {
    match e
    case Extracted(code, path) => Extracted(Some(code), Some(path))
    case ValueError(message, _) => ExtractionRaised(ValueError(message))
  }

  // ---------------------------------------------------------------------------
  // `allowed_file`

  /** Only the text after the last dot counts, whatever dots come before it. */
  lemma ExtensionAfterLastDot(stem: string, ext: string)
    requires '.' !in ext
    ensures AllowedFile(stem + "." + ext) <==> Lower(ext) in AllowedExtensions
  {
    var f := stem + "." + ext;
    assert f[|stem|] == '.';
    assert f[|stem| + 1..] == ext;
  }

  /**
   * At the last dot of the name, `allowed_file` holds exactly when the text
   * after that dot is an allowed extension.
   */
  lemma AllowedFileIff(filename: string, i: int)
    requires IsLastOccurrence(filename, '.', i)
    ensures AllowedFile(filename) <==> AllowedExtension(filename[i + 1..])
  {
    RFindIsLastOccurrence(filename, '.', i);
  }

  /** A filename without a dot is never allowed. */
  lemma NoDotNotAllowed(filename: string)
    requires '.' !in filename
    ensures !AllowedFile(filename)
  {
  }

  /**
   * The extension is compared lower-cased, and dots before the last one do
   * not matter: `a.tar.PY` passes and `x.py.bak` fails.
   */
  lemma LastExtensionLowerCased(stem: string)
    ensures AllowedFile(stem + ".PY")
    ensures !AllowedFile(stem + ".py.bak")
  {
    assert AllowedFile(stem + ".PY") by {
      assert stem + ".PY" == stem + "." + "PY";
      ExtensionAfterLastDot(stem, "PY");
      assert Lower("PY") == "py";
    }
    assert !AllowedFile(stem + ".py.bak") by {
      assert stem + ".py.bak" == (stem + ".py") + "." + "bak";
      ExtensionAfterLastDot(stem + ".py", "bak");
      assert Lower("bak") == "bak";
    }
  }

  /** The module name drops the final extension of a plain filename and keeps earlier dots. */
  lemma ModuleNameDropsFinalExtension(stem: string, ext: string, j: nat)
    requires '.' !in ext && '/' !in ext && '/' !in stem
    requires j < |stem| && stem[j] != '.'
    ensures ModuleName(stem + "." + ext) == stem
  {
    var f := stem + "." + ext;
    assert f[|stem| + 1..] == ext;
    assert f[j..] == stem[j..] + "." + ext;
    assert f[..|stem|] == stem;
    PyPath.SplitExtDropsLastExtension(f, |stem|, j);
  }

  // ---------------------------------------------------------------------------
  // The route

  /**
   * A failed check answers 400 with its message before extraction and the
   * model call: the answer is the same whatever those would give.
   */
  lemma ValidationShortCircuits(req: Request, secureFilename: string -> string, extraction: ExtractStage,
                                chat: string -> LlmService.ChatResult)
    requires Validate(req).Some?
    ensures HandleUpload(req, secureFilename, extraction, chat) == Response(400, Error(Validate(req).value), None)
  {
  }

  /** The checks run in a fixed order: file part, filename, `uploadType`, extension. */
  lemma ValidationOrder(req: Request)
    ensures req.file.None? ==> Validate(req) == Some(NoFilePart)
    ensures req.file == Some("") ==> Validate(req) == Some(NoFileSelected)
    ensures req.file.Some? && req.file.value != "" && !Truthy(req.uploadType)
            ==> Validate(req) == Some(MissingUploadType)
    ensures req.file.Some? && req.file.value != "" && Truthy(req.uploadType) && !AllowedFile(req.file.value)
            ==> Validate(req) == Some(TypeNotAllowed)
  {
  }

  /**
   * After validation, an exception from extraction answers 400 with a
   * `ValueError`'s message and 500 with the generic message otherwise,
   * without reaching the model.
   */
  lemma ExtractionExceptionAnswers(req: Request, secureFilename: string -> string, error: Raised,
                                   chat: string -> LlmService.ChatResult)
    requires Validate(req).None?
    ensures var r := HandleUpload(req, secureFilename, ExtractionRaised(error), chat);
      && (error.ValueError? ==> r == Response(400, Error(error.message), None))
      && (error.OtherException? ==> r == Response(500, Error(InternalError), None))
  {
  }

  /** After validation, extracted code `None` answers 500 without reaching the model. */
  lemma NoCodeAnswers500(req: Request, secureFilename: string -> string, cleanupPath: Option<string>,
                         chat: string -> LlmService.ChatResult)
    requires Validate(req).None?
    ensures HandleUpload(req, secureFilename, Extracted(None, cleanupPath), chat)
         == Response(500, Error(ExtractionFailed), None)
  {
  }

  /**
   * Extracted code answers 400 before the model call exactly when it is blank
   * and the upload type is `zip`; the message names the sanitised filename.
   */
  lemma BlankZipRejected(req: Request, secureFilename: string -> string, code: string, cleanupPath: Option<string>,
                         chat: string -> LlmService.ChatResult)
    requires Validate(req).None?
    ensures var r := HandleUpload(req, secureFilename, Extracted(Some(code), cleanupPath), chat);
      && (r.status == 400 <==> IsBlank(code) && req.uploadType == Some("zip"))
      && (r.status == 400 ==> r.body == Error(NoCodeInZip(secureFilename(req.file.value))))
      && (r.status == 400 <==> r.sentPrompt.None?)
  {
    var r := HandleUpload(req, secureFilename, Extracted(Some(code), cleanupPath), chat);
    if r.status == 400 {
      assert Strip(code) == "";
    }
  }

  /**
   * Past validation and extraction, the prompt sent to the model is built
   * from the extracted code, the module name of the sanitised filename and the
   * RAW `language`, `framework` and `instructions` fields (defaults `python`
   * and `unittest`); the stripped and lower-cased values are never used.
   */
  lemma SentPromptUsesRawForm(req: Request, secureFilename: string -> string, code: string,
                              cleanupPath: Option<string>, chat: string -> LlmService.ChatResult)
    requires Validate(req).None?
    requires !(IsBlank(code) && req.uploadType == Some("zip"))
    ensures HandleUpload(req, secureFilename, Extracted(Some(code), cleanupPath), chat).sentPrompt
         == Some(PromptBuilder.ConstructPrompt(code, ModuleName(secureFilename(req.file.value)),
                                               req.language.GetOr("python"), req.framework.GetOr("unittest"),
                                               req.instructions))
  {
    var filename := secureFilename(req.file.value);
    assert Strip(code) == "" ==> IsBlank(code);
    assert HandleUpload(req, secureFilename, Extracted(Some(code), cleanupPath), chat).sentPrompt
        == Some(SentPrompt(req, code, filename));
  }

  /**
   * Once the prompt is sent, a falsy cleaned reply answers 500, and otherwise
   * the answer is 200 with the script, the sanitised filename and the upload type.
   */
  lemma GenerationOutcome(req: Request, secureFilename: string -> string, extraction: ExtractStage,
                          chat: string -> LlmService.ChatResult)
    ensures var r := HandleUpload(req, secureFilename, extraction, chat);
      r.sentPrompt.Some? ==>
        var script := LlmService.CleanReply(chat(r.sentPrompt.value));
        var filename := secureFilename(req.file.value);
        && (!Truthy(script) ==> r == Response(500, Error(LlmFailed), r.sentPrompt))
        && (Truthy(script) ==> r.status == 200 && r.body == Success(SuccessMessage(filename), script.value,
                                                                    filename, req.uploadType.value))
  {
    var r := HandleUpload(req, secureFilename, extraction, chat);
    if r.sentPrompt.Some? {
      var filename := secureFilename(req.file.value);
      var code := extraction.code.value;
      assert r.sentPrompt == Some(SentPrompt(req, code, filename));
    }
  }

  /** A 200 answer means every stage succeeded: validation, extraction and a non-empty script. */
  lemma SuccessNeedsEveryStage(req: Request, secureFilename: string -> string, extraction: ExtractStage,
                               chat: string -> LlmService.ChatResult)
    ensures var r := HandleUpload(req, secureFilename, extraction, chat);
      r.status == 200 ==>
        && Validate(req).None?
        && extraction.Extracted? && extraction.code.Some?
        && r.sentPrompt.Some?
        && r.body.generatedScript != ""
        && r.body.generatedScript == LlmService.CleanReply(chat(r.sentPrompt.value)).value
  {
  }

  // ---------------------------------------------------------------------------
  // The route composed with the extractor of file_processor.py

  /**
   * An upload type other than `zip` and `single` passes validation (it is only
   * checked for truthiness) and is then rejected by the extractor with 400.
   */
  lemma UnknownUploadTypeRejectedLate(req: Request, secureFilename: string -> string, upload: FileProcessor.Upload,
                                      tempDir: string, chat: string -> LlmService.ChatResult)
    requires Validate(req).None?
    requires req.uploadType.value != "zip" && req.uploadType.value != "single"
    ensures var extraction := FromProcessUpload(FileProcessor.ProcessUpload(upload, req.uploadType.value, tempDir));
      HandleUpload(req, secureFilename, extraction, chat)
        == Response(400, Error("Unknown upload type: " + req.uploadType.value), None)
  {
  }

  /** A valid zip with no readable code member answers 400 naming the sanitised filename. */
  lemma ZipWithoutCodeRejected(req: Request, secureFilename: string -> string, upload: FileProcessor.Upload,
                               tempDir: string, chat: string -> LlmService.ChatResult)
    requires Validate(req).None? && req.uploadType == Some("zip")
    requires upload.isZipFile
    requires forall i :: 0 <= i < |upload.namelist| ==> !FileProcessor.Collects(upload.namelist[i])
    ensures var extraction := FromProcessUpload(FileProcessor.ProcessUpload(upload, "zip", tempDir));
      HandleUpload(req, secureFilename, extraction, chat)
        == Response(400, Error(NoCodeInZip(secureFilename(req.file.value))), None)
  {
    var c := FileProcessor.Collected(upload.namelist);
    if c != [] {
      FileProcessor.CollectedMembers(upload.namelist, c[0]);
      assert false;
    }
  }

  /**
   * `.jsx`, `.tsx` and `.txt` files pass the upload check, but zip members
   * with those suffixes are not collected.
   */
  lemma UploadCheckWiderThanZipFilter(stem: string, ext: string)
    requires ext == "jsx" || ext == "tsx" || ext == "txt"
    ensures AllowedFile(stem + "." + ext)
    ensures !FileProcessor.IsCodeMember(stem + "." + ext)
  {
    ExtensionAfterLastDot(stem, ext);
    assert Lower(ext) == ext;
    FileProcessor.WiderSuffixesNotCollected(stem, ext);
  }
}
