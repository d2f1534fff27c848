/** The devices of the repository. */
module Device {
  import opened Common

  /** The fields of a device at one moment; JSON values are kept as they came. */
  datatype Fields = Fields(status: string, macAddr: string, manufacturer: string, model: string,
                           kind: string, technology: string, testPack: Option<string>,
                           additionalInfo: string, testModules: Option<string>,
                           firmware: Option<string>, deviceFolder: string)

  function LowerChar(c: char): char {
    if 'A' <= c <= 'Z' then c - 'A' + 'a' else c
  }

  /** `s.lower()` for ASCII. */
  function Lower(s: string): (r: string)
    ensures |r| == |s| && forall i :: 0 <= i < |s| ==> r[i] == LowerChar(s[i])
  {
    if s == "" then "" else [LowerChar(s[0])] + Lower(s[1..])
  }

  lemma LowerTwice(s: string)
    ensures Lower(Lower(s)) == Lower(s)
  {
    assert forall i :: 0 <= i < |s| ==> Lower(Lower(s))[i] == Lower(s)[i];
  }

  /** A device that the repository, the session and the handlers share. */
  class Device {
    var status: string
    var macAddr: string
    var manufacturer: string
    var model: string
    var kind: string
    var technology: string
    var testPack: Option<string>
    var additionalInfo: string
    var testModules: Option<string>
    var firmware: Option<string>
    var deviceFolder: string

    constructor (f: Fields)
      ensures View() == f
    {
      status, macAddr, manufacturer, model := f.status, f.macAddr, f.manufacturer, f.model;
      kind, technology, testPack := f.kind, f.technology, f.testPack;
      additionalInfo, testModules, firmware := f.additionalInfo, f.testModules, f.firmware;
      deviceFolder := f.deviceFolder;
    }

    /** What the generated equality compares. */
    function View(): Fields
      reads this
    {
      Fields(status, macAddr, manufacturer, model, kind, technology, testPack, additionalInfo,
             testModules, firmware, deviceFolder)
    }
  }
}
