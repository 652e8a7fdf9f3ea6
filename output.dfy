/**
 * The format dispatch of `process_output` (BulkSearch.py:118-126): `txt`,
 * `xml` and `json` select a formatter, and any other format yields no
 * message.
 */
module Output {
  import opened Wrappers
  import opened SearchResults
  import TxtOutput
  import XmlTree
  import XmlOutput
  import JsonOutput

  /** The message each output format produces, or `None` for an unknown format. */
  function Report(data: SearchResult, outputFormat: string, pattern: string): Option<string> {
    if outputFormat == "txt" then Some(TxtOutput.Txt(data))
    else if outputFormat == "xml" then Some(XmlTree.Serialize(XmlOutput.SearchTree(data, pattern)))
    else if outputFormat == "json" then Some(JsonOutput.OutputToJson(data, pattern))
    else None
  }

  method ProcessOutput(data: SearchResult, outputFormat: string, pattern: string) returns (msg: Option<string>)
    ensures msg == Report(data, outputFormat, pattern)
  {
    if outputFormat == "txt" {
      var text := TxtOutput.OutputToTxt(data);
      msg := Some(text);
    } else if outputFormat == "xml" {
      var text := XmlOutput.OutputToXml(data, pattern);
      msg := Some(text);
    } else if outputFormat == "json" {
      msg := Some(JsonOutput.OutputToJson(data, pattern));
    } else {
      msg := None;
    }
  }

  /** A message is produced exactly for the three known formats. */
  lemma ReportDefined(data: SearchResult, outputFormat: string, pattern: string)
    ensures Report(data, outputFormat, pattern).Some?
      <==> outputFormat == "txt" || outputFormat == "xml" || outputFormat == "json"
  {
  }

  /**
   * Each message determines the result it reports: the XML and JSON reports
   * always, together with the search text, and the plain-text report when
   * its paths and lines can be told apart.
   */
  lemma ReportRoundTrip(data: SearchResult, outputFormat: string, pattern: string)
    requires outputFormat == "txt" ==> TxtOutput.Readable(data)
    ensures outputFormat == "txt" ==>
      Report(data, outputFormat, pattern) == Some(TxtOutput.Txt(data))
      && TxtOutput.ParseBlocks(TxtOutput.Txt(data)) == Some(data)
    ensures outputFormat == "xml" ==>
      var msg := XmlTree.Serialize(XmlOutput.SearchTree(data, pattern));
      Report(data, outputFormat, pattern) == Some(msg)
      && XmlOutput.DecodeXml(msg) == Some((pattern, data)) && XmlTree.Ascii(msg)
    ensures outputFormat == "json" ==>
      var msg := JsonOutput.OutputToJson(data, pattern);
      Report(data, outputFormat, pattern) == Some(msg)
      && JsonOutput.DecodeJson(msg) == Some((pattern, data))
  {
    if outputFormat == "txt" {
      TxtOutput.TxtRoundTrip(data);
    } else if outputFormat == "xml" {
      XmlOutput.XmlRoundTrip(data, pattern);
      XmlOutput.XmlAscii(data, pattern);
    } else if outputFormat == "json" {
      JsonOutput.JsonRoundTrip(data, pattern);
    }
  }
}
