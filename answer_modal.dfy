/**
 * The answer form (src/components/questions/SimpleAnswerModal.tsx): the
 * recording timer's display, the speech-recognition transcript, the payload
 * the form sends and the form state that submitting and closing leave behind.
 * The browser's media and speech APIs and the network replies are parameters.
 */
module SimpleAnswer {
  import opened Wrappers
  import opened Text
  import opened Types
  import AnswersRoute

  /* ---- the recording timer ---- */

  /** `formatDuration`: whole minutes, a colon, then the seconds padded to two digits. */
  function FormatDuration(seconds: nat): (t: string)
    ensures |t| >= 4 && t[|t| - 3] == ':' && IsDigit(t[|t| - 2]) && IsDigit(t[|t| - 1])
    ensures seconds < 600 ==> |t| == 4
  {
    PaddedSeconds(seconds % 60);
    NatToString(seconds / 60) + ":" + PadStart(NatToString(seconds % 60), 2, '0')
  }

  /** Reads an `m:ss` display back: digits, a colon, two digits below 60. */
  function ParseDuration(t: string): (r: Option<nat>)
    ensures r.Some? ==> |t| >= 4 && t[|t| - 3] == ':' && IsDigit(t[|t| - 2]) && IsDigit(t[|t| - 1])
  {
    if |t| < 4 || t[|t| - 3] != ':' || !IsDigit(t[|t| - 2]) || !IsDigit(t[|t| - 1]) then None
    else
      var mins := t[..|t| - 3];
      var secs := DigitValue(t[|t| - 2]) * 10 + DigitValue(t[|t| - 1]);
      if AllDigits(mins) && secs < 60 then Some(ParseDigits(mins) * 60 + secs) else None
  }

  /** The seconds part of the display: two digits that read back to the seconds. */
  lemma PaddedSeconds(n: nat)
    requires n < 60
    ensures var p := PadStart(NatToString(n), 2, '0');
            |p| == 2 && IsDigit(p[0]) && IsDigit(p[1]) && DigitValue(p[0]) * 10 + DigitValue(p[1]) == n
  {
    var d := NatToString(n);
    var p := PadStart(d, 2, '0');
    if n < 10 {
      assert d == [DigitChar(n)];
      assert p[1..] == d && p[0] == '0';
    } else {
      assert d == NatToString(n / 10) + [DigitChar(n % 10)];
      assert NatToString(n / 10) == [DigitChar(n / 10)];
      assert p == d;
    }
  }

  /** The display is exact: its minutes and sub-minute seconds give back the seconds counted. */
  lemma FormatDurationRoundTrip(seconds: nat)
    ensures ParseDuration(FormatDuration(seconds)) == Some(seconds)
  {
    var mins, secs := seconds / 60, seconds % 60;
    assert mins * 60 + secs == seconds;
    var m, p := NatToString(mins), PadStart(NatToString(secs), 2, '0');
    PaddedSeconds(secs);
    ParseNatToString(mins);
    var t := m + ":" + p;
    assert FormatDuration(seconds) == t;
    assert t[..|t| - 3] == m;
    assert t[|t| - 3] == ':' && t[|t| - 2] == p[0] && t[|t| - 1] == p[1];
  }

  /* ---- speech recognition ---- */

  /** One entry of a recognition event's result list (its first alternative). */
  datatype RecognitionResult = RecognitionResult(transcript: string, isFinal: bool)

  /** The transcripts of the final results among `results[lo..hi]`, in order. */
  function FinalsBetween(results: seq<RecognitionResult>, lo: nat, hi: nat): string
    requires lo <= hi <= |results|
    decreases hi - lo
  {
    if lo == hi then ""
    else FinalsBetween(results, lo, hi - 1) + (if results[hi - 1].isFinal then results[hi - 1].transcript else "")
  }

  /** Interim results contribute nothing. */
  lemma {:induction false} NoFinalNoText(results: seq<RecognitionResult>, lo: nat, hi: nat)
    requires lo <= hi <= |results|
    requires forall i :: lo <= i < hi ==> !results[i].isFinal
    ensures FinalsBetween(results, lo, hi) == ""
    decreases hi - lo
  {
    if lo < hi {
      NoFinalNoText(results, lo, hi - 1);
    }
  }

  /** Collecting in two stretches gives the same text as collecting in one. */
  lemma {:induction false} FinalsSplit(results: seq<RecognitionResult>, a: nat, b: nat, c: nat)
    requires a <= b <= c <= |results|
    ensures FinalsBetween(results, a, c) == FinalsBetween(results, a, b) + FinalsBetween(results, b, c)
    decreases c - b
  {
    if b < c {
      FinalsSplit(results, a, b, c - 1);
    }
  }

  /** The `onresult` loop: final transcripts from `resultIndex` on, concatenated. */
  method CollectFinal(results: seq<RecognitionResult>, resultIndex: nat) returns (finalTranscript: string)
    ensures resultIndex <= |results| ==> finalTranscript == FinalsBetween(results, resultIndex, |results|)
    ensures resultIndex > |results| ==> finalTranscript == ""
  {
    finalTranscript := "";
    var i := resultIndex;
    while i < |results|
      invariant resultIndex <= |results| ==> resultIndex <= i <= |results|
      invariant resultIndex <= |results| ==> finalTranscript == FinalsBetween(results, resultIndex, i)
      invariant resultIndex > |results| ==> finalTranscript == ""
      decreases |results| - i
    {
      var transcript := results[i].transcript;
      if results[i].isFinal {
        finalTranscript := finalTranscript + transcript;
      }
      i := i + 1;
    }
  }

  /** The text after dictation: a single space joins old and new text when both are non-empty. */
  function Appended(prev: string, finalTranscript: string): (r: string)
    ensures finalTranscript == "" ==> r == prev
    ensures finalTranscript != "" ==>
              |r| == |prev| + (if prev == "" then 0 else 1) + |finalTranscript| &&
              r[..|prev|] == prev && r[|r| - |finalTranscript|..] == finalTranscript
    ensures finalTranscript != "" && prev != "" ==> r[|prev|] == ' '
  {
    if finalTranscript == "" then prev
    else prev + (if prev != "" then " " else "") + finalTranscript
  }

  const MicrophoneDenied := "Microphone access denied. Please allow microphone permissions and try again."
  const NoSpeech := "No speech detected. Please try speaking again."
  const NetworkTrouble := "Network error. Please check your internet connection and try again."

  /**
   * The message `onerror` shows for an error code; `wasRecording` is the
   * recording flag the handler reads. A network error while not recording,
   * an abort and any other code show nothing.
   */
  function RecognitionErrorMessage(code: string, wasRecording: bool): (r: Option<string>)
    ensures r.Some? <==> code == "not-allowed" || code == "no-speech" || (code == "network" && wasRecording)
    ensures code == "not-allowed" ==> r == Some(MicrophoneDenied)
    ensures code == "no-speech" ==> r == Some(NoSpeech)
    ensures code == "network" && wasRecording ==> r == Some(NetworkTrouble)
  {
    if code == "network" && !wasRecording then None
    else if code == "not-allowed" then Some(MicrophoneDenied)
    else if code == "no-speech" then Some(NoSpeech)
    else if code == "network" then Some(NetworkTrouble)
    else None
  }

  /* ---- the payload ---- */

  /** `!textAnswer.trim() && !audioBlob` fails, or a request is already in flight. */
  function SubmitDisabled(loading: bool, textAnswer: string, hasAudio: bool): (disabled: bool)
    ensures disabled <==> loading || (IsBlank(textAnswer) && !hasAudio)
  {
    loading || (Trim(textAnswer) == [] && !hasAudio)
  }

  /** The body of `POST /api/answers`: the trimmed text only if non-empty, the URL only if truthy. */
  function BuildPayload(questionId: Id, textAnswer: string, audioUrl: Option<string>): (r: CreateAnswerData)
    ensures r.questionId == questionId
    ensures r.text.Some? <==> !IsBlank(textAnswer)
    ensures r.text.Some? ==> r.text.value == Trim(textAnswer) && HasContent(r.text)
    ensures r.audioUrl.Some? <==> Present(audioUrl)
    ensures r.audioUrl.Some? ==> r.audioUrl == audioUrl
  {
    var t := Trim(textAnswer);
    TrimIdempotent(textAnswer);
    CreateAnswerData(if t != [] then Some(t) else None, if Present(audioUrl) then audioUrl else None, questionId)
  }

  /**
   * A payload built from text or a usable audio URL passes the server's
   * validation, and the server stores its text exactly as sent.
   */
  lemma PayloadAccepted(questionId: Id, textAnswer: string, audioUrl: Option<string>)
    requires questionId != []
    requires !IsBlank(textAnswer) || Present(audioUrl)
    ensures AnswersRoute.Validate(BuildPayload(questionId, textAnswer, audioUrl)).None?
    ensures TrimOpt(BuildPayload(questionId, textAnswer, audioUrl).text) == BuildPayload(questionId, textAnswer, audioUrl).text
  {
    TrimIdempotent(textAnswer);
  }

  /**
   * The form lets a recording through its guard, but an upload reply without a
   * URL and no text leaves a payload the server rejects.
   */
  lemma RecordingWithoutUrlRejected(questionId: Id, textAnswer: string, audioUrl: Option<string>)
    requires IsBlank(textAnswer) && !Present(audioUrl)
    ensures !SubmitDisabled(false, textAnswer, true)
    ensures AnswersRoute.Validate(BuildPayload(questionId, textAnswer, audioUrl)) == Some(AnswersRoute.ContentRequired)
  {
  }

  /* ---- network replies ---- */

  type Blob = seq<bv8>

  /** What `fetch('/api/upload/audio')` yields: an OK body with `audioUrl`, a non-OK status, or a throw. */
  datatype UploadReply = Uploaded(audioUrl: Option<string>) | UploadRefused | UploadThrew(message: string)

  /** What `fetch('/api/answers')` yields: OK, a non-OK body with `error`, or a throw. */
  datatype CreateReply = Accepted | Refused(error: Option<string>) | CreateThrew(message: string)

  const PleaseProvide := "Please provide either a text answer or an audio recording."
  const UploadFailed := "Failed to upload audio"
  const SubmitFailed := "Failed to submit answer"
  const MicrophoneUnavailable := "Could not access microphone. Please allow microphone permissions."

  /** The message a failed upload leaves: the fixed text for a non-OK status, the thrown message otherwise. */
  function UploadError(upload: UploadReply): (e: string)
    ensures upload.Uploaded? ==> e == ""
    ensures upload.UploadRefused? ==> e == UploadFailed && e != []
    ensures upload.UploadThrew? ==> e == upload.message
  {
    match upload
    case Uploaded(_) => ""
    case UploadRefused => UploadFailed
    case UploadThrew(m) => m
  }

  /** The message a failed answer request leaves: a refusal always shows something, the server's `error` when truthy. */
  function CreateError(create: CreateReply): (e: string)
    ensures create.Accepted? ==> e == ""
    ensures create.Refused? ==> e != [] && e == (if Present(create.error) then create.error.value else SubmitFailed)
    ensures create.CreateThrew? ==> e == create.message
  {
    match create
    case Accepted => ""
    case Refused(e) => if Present(e) then e.value else SubmitFailed
    case CreateThrew(m) => m
  }

  /* ---- the form ---- */

  /**
   * Where a submission stands between its awaits: none pending, waiting for the
   * upload (with the text as it was when the form was submitted), or waiting
   * for the answer request.
   */
  datatype Submission = Idle | Uploading(text: string) | Posting

  class AnswerForm {
    const questionId: Id
    var textAnswer: string
    var isRecording: bool
    var isRecordingAudio: bool
    var audioBlob: Option<Blob>
    var hasRecorder: bool
    var loading: bool
    var error: string
    var recordingDuration: nat
    var hasInterval: bool
    var submission: Submission

    /** `loading` is set exactly while a submission is pending. */
    predicate Valid()
      reads this`loading, this`submission
    {
      loading <==> !submission.Idle?
    }

    /** A fresh form for the question. */
    constructor (questionId: Id)
      ensures this.questionId == questionId
      ensures textAnswer == "" && !isRecording && !isRecordingAudio && audioBlob.None? && !hasRecorder
      ensures !loading && error == "" && recordingDuration == 0 && !hasInterval
      ensures submission == Idle && Valid()
    {
      this.questionId := questionId;
      textAnswer, isRecording, isRecordingAudio, audioBlob, hasRecorder := "", false, false, None, false;
      loading, error, recordingDuration, hasInterval := false, "", 0, false;
      submission := Idle;
    }

    /** `onstart`: dictation is running. */
    method OnRecognitionStart()
      modifies this`isRecording
      ensures isRecording
    {
      isRecording := true;
    }

    /** `onend`: dictation has stopped. */
    method OnRecognitionEnd()
      modifies this`isRecording
      ensures !isRecording
    {
      isRecording := false;
    }

    /** `onresult`: appends the event's final text, if any, to the answer. */
    method OnResult(results: seq<RecognitionResult>, resultIndex: nat)
      modifies this`textAnswer
      ensures resultIndex <= |results| ==> textAnswer == Appended(old(textAnswer), FinalsBetween(results, resultIndex, |results|))
      ensures resultIndex > |results| ==> textAnswer == old(textAnswer)
    {
      var finalTranscript := CollectFinal(results, resultIndex);
      if finalTranscript != "" {
        textAnswer := Appended(textAnswer, finalTranscript);
      }
    }

    /** `onerror`: recording stops; the message for the code, if any, is shown. */
    method OnRecognitionError(code: string, wasRecording: bool)
      modifies this`isRecording, this`error
      ensures !isRecording
      ensures error == RecognitionErrorMessage(code, wasRecording).GetOr(old(error))
    {
      isRecording := false;
      var message := RecognitionErrorMessage(code, wasRecording);
      if message.Some? {
        error := message.value;
      }
    }

    /** `startAudioRecording`: with microphone access the recorder runs and the timer restarts at 0. */
    method StartAudioRecording(microphoneGranted: bool)
      modifies this`hasRecorder, this`isRecordingAudio, this`recordingDuration, this`hasInterval, this`error
      ensures microphoneGranted ==> hasRecorder && isRecordingAudio && recordingDuration == 0 && hasInterval && error == old(error)
      ensures !microphoneGranted ==>
                error == MicrophoneUnavailable &&
                hasRecorder == old(hasRecorder) && isRecordingAudio == old(isRecordingAudio) &&
                recordingDuration == old(recordingDuration) && hasInterval == old(hasInterval)
    {
      if !microphoneGranted {
        error := MicrophoneUnavailable;
        return;
      }
      hasRecorder, isRecordingAudio, recordingDuration, hasInterval := true, true, 0, true;
    }

    /** One tick of the one-second interval. */
    method Tick()
      modifies this`recordingDuration
      ensures recordingDuration == old(recordingDuration) + 1
    {
      recordingDuration := recordingDuration + 1;
    }

    /** The recorder's `onstop`: the recorded audio becomes the answer's blob. */
    method OnRecorderStop(blob: Blob)
      modifies this`audioBlob
      ensures audioBlob == Some(blob)
    {
      audioBlob := Some(blob);
    }

    /** `stopAudioRecording`: only a running recorder stops; the timer is cleared with it. */
    method StopAudioRecording() returns (stopped: bool)
      modifies this`isRecordingAudio, this`hasInterval
      ensures stopped == (old(hasRecorder) && old(isRecordingAudio))
      ensures stopped ==> !isRecordingAudio && !hasInterval
      ensures !stopped ==> isRecordingAudio == old(isRecordingAudio) && hasInterval == old(hasInterval)
    {
      stopped := hasRecorder && isRecordingAudio;
      if stopped {
        isRecordingAudio := false;
        hasInterval := false;
      }
    }

    /** `clearAudioRecording`. */
    method ClearAudioRecording()
      modifies this`audioBlob, this`recordingDuration
      ensures audioBlob.None? && recordingDuration == 0
    {
      audioBlob := None;
      recordingDuration := 0;
    }

    /**
     * `handleSubmit` up to its first `await`: the guard, then either the
     * upload (with a recording) or the answer request (without one). The
     * submit button is disabled while loading, so a submit arrives only when
     * no submission is pending.
     */
    method HandleSubmit() returns (uploading: bool, request: Option<CreateAnswerData>)
      requires Valid() && !loading
      modifies this`loading, this`error, this`submission
      ensures Valid()
      ensures SubmitDisabled(false, textAnswer, audioBlob.Some?) ==>
                error == PleaseProvide && !uploading && request.None? && submission == Idle
      ensures !SubmitDisabled(false, textAnswer, audioBlob.Some?) ==>
                loading && error == "" && uploading == audioBlob.Some?
      ensures !SubmitDisabled(false, textAnswer, audioBlob.Some?) && uploading ==>
                request.None? && submission == Uploading(textAnswer)
      ensures !SubmitDisabled(false, textAnswer, audioBlob.Some?) && !uploading ==>
                request == Some(BuildPayload(questionId, textAnswer, None)) && submission == Posting
    {
      uploading, request := false, None;
      if Trim(textAnswer) == [] && audioBlob.None? {
        error := PleaseProvide;
        return;
      }
      loading := true;
      error := "";
      if audioBlob.Some? {
        uploading := true;
        submission := Uploading(textAnswer);
      } else {
        request := Some(BuildPayload(questionId, textAnswer, None));
        submission := Posting;
      }
    }

    /**
     * The upload settles: a failure aborts with its message and ends
     * `loading`; success sends the answer request with the returned URL and
     * the text captured at submission.
     */
    method OnUploadReply(upload: UploadReply) returns (request: Option<CreateAnswerData>)
      requires Valid() && submission.Uploading?
      modifies this`loading, this`error, this`submission
      ensures Valid()
      ensures !upload.Uploaded? ==> request.None? && error == UploadError(upload) && !loading && submission == Idle
      ensures upload.Uploaded? ==>
                request == Some(BuildPayload(questionId, old(submission).text, upload.audioUrl)) &&
                loading && submission == Posting && error == old(error)
    {
      if !upload.Uploaded? {
        error := UploadError(upload);
        loading := false;
        submission := Idle;
        return None;
      }
      request := Some(BuildPayload(questionId, submission.text, upload.audioUrl));
      submission := Posting;
    }

    /**
     * The answer request settles: success empties the form and closes it with
     * true; a failure shows its message. `loading` ends either way.
     */
    method OnAnswerReply(create: CreateReply) returns (closed: Option<bool>)
      requires Valid() && submission.Posting?
      modifies this`textAnswer, this`audioBlob, this`recordingDuration, this`loading, this`error, this`submission
      ensures Valid() && !loading && submission == Idle
      ensures create.Accepted? ==>
                closed == Some(true) && error == old(error) &&
                textAnswer == "" && audioBlob.None? && recordingDuration == 0
      ensures !create.Accepted? ==>
                closed.None? && error == CreateError(create) &&
                textAnswer == old(textAnswer) && audioBlob == old(audioBlob) && recordingDuration == old(recordingDuration)
    {
      closed := None;
      if create.Accepted? {
        textAnswer := "";
        audioBlob := None;
        recordingDuration := 0;
        closed := Some(true);
      } else {
        error := CreateError(create);
      }
      loading := false;
      submission := Idle;
    }

    /**
     * `handleClose`: the form is emptied, running recognition and recording are
     * stopped, the timer cleared, and `onClose(false)` called. Returns whether
     * recognition and the recorder were told to stop, and the close flag.
     */
    method HandleClose(hasRecognition: bool) returns (stopRecognition: bool, stopRecorder: bool, closed: bool)
      modifies this`textAnswer, this`error, this`audioBlob, this`recordingDuration, this`isRecordingAudio, this`hasInterval
      ensures textAnswer == "" && error == "" && audioBlob.None? && recordingDuration == 0 && !hasInterval
      ensures stopRecognition == (old(isRecording) && hasRecognition)
      ensures stopRecorder == (old(isRecordingAudio) && old(hasRecorder))
      ensures isRecordingAudio == (old(isRecordingAudio) && !old(hasRecorder))
      ensures !closed
    {
      textAnswer, error, audioBlob, recordingDuration := "", "", None, 0;
      stopRecognition := isRecording && hasRecognition;
      stopRecorder := isRecordingAudio && hasRecorder;
      if stopRecorder {
        isRecordingAudio := false;
      }
      hasInterval := false;
      closed := false;
    }
  }

  /**
   * A recording with no text: the submission uploads first, then sends an
   * answer carrying only the returned URL, and an accepted answer closes the
   * form with true.
   */
  method RecordingOnlySubmission(questionId: Id, blob: Blob, url: string, create: CreateReply)
    returns (uploading: bool, request: Option<CreateAnswerData>, closed: Option<bool>)
    requires url != []
    ensures uploading
    ensures request == Some(CreateAnswerData(None, Some(url), questionId))
    ensures closed == (if create.Accepted? then Some(true) else None)
  {
    var form := new AnswerForm(questionId);
    form.OnRecorderStop(blob);
    var first;
    uploading, first := form.HandleSubmit();
    request := form.OnUploadReply(Uploaded(Some(url)));
    closed := form.OnAnswerReply(create);
  }
}
