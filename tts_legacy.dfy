/** The older speech output of `src/tts.js`: the same splitting and token merging as the newer
    one, a voice model fixed to English, and the audio device picked as the last HDMI output
    listed. */
module TtsLegacy {
  import opened Text
  import opened Tts

  /** The one device name the older version looks for. */
  const HdmiDevice: string := "Built-in Audio Digital Stereo (HDMI)"

  /** `path.join(process.cwd(), 'models', 'orca_params_en_female.pv')`. */
  function LegacyModelPath(cwd: string): string {
    ModelPath(cwd, "en")
  }

  /** The last device whose name contains `pattern`, or 0 when none does. */
  function LastDevice(devices: seq<string>, pattern: string): nat {
    if devices == [] then 0
    else if Contains(devices[|devices| - 1], pattern) then |devices| - 1
    else LastDevice(devices[..|devices| - 1], pattern)
  }

  /** The device chosen is the highest-index one containing `pattern`; index 0 is used when no
      device does. */
  lemma {:induction false} LastDeviceChoice(devices: seq<string>, pattern: string)
    ensures (exists i :: 0 <= i < |devices| && Contains(devices[i], pattern)) ==>
      LastDevice(devices, pattern) < |devices| && Contains(devices[LastDevice(devices, pattern)], pattern)
      && forall j :: LastDevice(devices, pattern) < j < |devices| ==> !Contains(devices[j], pattern)
    ensures (forall i :: 0 <= i < |devices| ==> !Contains(devices[i], pattern)) ==> LastDevice(devices, pattern) == 0
  {
    if devices != [] {
      var front := devices[..|devices| - 1];
      LastDeviceChoice(front, pattern);
      if !Contains(devices[|devices| - 1], pattern) {
        assert forall i :: 0 <= i < |front| ==> front[i] == devices[i];
        if exists i :: 0 <= i < |devices| && Contains(devices[i], pattern) {
          var i :| 0 <= i < |devices| && Contains(devices[i], pattern);
          assert i < |front| && Contains(front[i], pattern);
        }
      }
    }
  }

  /** The device loop of the older `speak`: every device is listed, and each one containing the
      HDMI name overwrites the choice, which starts at 0. */
  method ChooseDevice(devices: seq<string>) returns (deviceIndex: nat)
    ensures deviceIndex == LastDevice(devices, HdmiDevice)
  {
    deviceIndex := 0;
    for i := 0 to |devices|
      invariant deviceIndex == LastDevice(devices[..i], HdmiDevice)
    {
      if Contains(devices[i], HdmiDevice) {
        deviceIndex := i;
      }
      assert devices[..i + 1][..i] == devices[..i];
    }
    assert devices[..|devices|] == devices;
  }

  /** The older version always speaks English, unless the working directory itself has
      `orca_params_` in its name. */
  lemma LegacyLanguage(cwd: string)
    requires !Contains(cwd, ModelFilePrefix)
    ensures LanguageOf(LegacyModelPath(cwd)) == "en"
  {
    ModelLanguage(cwd, "en");
  }

  /** What the older `speak(text)` settles on before it starts the synthesiser; it has no guard
      and always lists the devices. */
  datatype LegacyPlan = LegacyPlan(language: string, deviceIndex: nat, tokens: seq<string>)

  method Speak(text: string, cwd: string, devices: seq<string>, tiktoken: string -> seq<string>) returns (plan: LegacyPlan)
    ensures plan.language == LanguageOf(LegacyModelPath(cwd))
    ensures plan.deviceIndex == LastDevice(devices, HdmiDevice)
    ensures plan.tokens == Tokenized(text, plan.language, tiktoken)
  {
    var language := LanguageOf(LegacyModelPath(cwd));
    var deviceIndex := ChooseDevice(devices);
    var tokens := TokenizeText(text, language, tiktoken);
    plan := LegacyPlan(language, deviceIndex, tokens);
  }
}
