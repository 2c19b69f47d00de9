/** The secret store: the loop that reads the file and the loop that writes it. */
module SecretStores {
  import opened Options
  import opened Texts
  import opened Secrets
  import opened SecretLines

  function Join(lines: seq<string>): string {
    if lines == [] then ""
    else if |lines| == 1 then lines[0]
    else Join(lines[..|lines| - 1]) + "\n" + lines[|lines| - 1]
  }

  lemma {:induction false} JoinIsUnlines(lines: seq<string>)
    requires lines != []
    ensures Join(lines) + "\n" == Unlines(lines)
  {
    if |lines| == 1 {
      assert lines[..0] == [] && Unlines(lines[..0]) == "";
      assert Unlines(lines) == lines[0] + "\n";
    } else {
      JoinIsUnlines(lines[..|lines| - 1]);
    }
  }

  /** Joining the lines and ending the text with a newline, unless it is empty, gives the saved text. */
  lemma JoinedIsSaved(plain: char -> bool, keys: seq<string>, values: map<string, string>)
    requires forall k :: k in keys ==> k in values
    ensures var joined := Join(FileLines(plain, keys, values));
            Saved(plain, keys, values) == if joined == "" then "" else joined + "\n"
  {
    hide EscapeEnvValue;
    var lines := FileLines(plain, keys, values);
    if keys != [] {
      JoinIsUnlines(lines);
      JoinStarts(lines);
      hide Join, Unlines;
      assert lines[0][|keys[0]|] == '=' && lines[0] != "";
    }
  }

  lemma {:induction false} JoinStarts(lines: seq<string>)
    requires lines != []
    ensures lines[0] <= Join(lines)
  {
    if |lines| > 1 { JoinStarts(lines[..|lines| - 1]); }
  }

  class SecretStore {
    var values: map<string, string>

    /** `SecretStore::parse`. */
    constructor Parse(contents: string)
      ensures values == Parsed(contents)
      ensures Collects(Lines(if contents != "" && contents[0] == BOM then contents[1..] else contents), values)
    {
      ParsedExactly(Lines(StripBom(contents)));
      hide Trim, UnescapeEnvValue, NormalizeEnvKey, IndexOf, Lines, Collects;
      var lines := Lines(StripBom(contents));
      var parsed: map<string, string> := map[];
      for i := 0 to |lines|
        invariant parsed == ParseLines(lines[..i])
      {
        assert lines[..i + 1][..i] == lines[..i];
        var line := Trim(lines[i]);
        if line == "" || line[0] == '#' {
          continue;
        }
        var split := IndexOf(line, '=');
        if split.None? {
          continue;
        }
        var key := NormalizeEnvKey(line[..split.value]);
        if key == "" {
          continue;
        }
        parsed := parsed[key := UnescapeEnvValue(Trim(line[split.value + 1..]))];
      }
      assert lines[..|lines|] == lines;
      values := parsed;
    }

    /** The text `SecretStore::save` writes, for the order the map yields its keys in. */
    method Save(plain: char -> bool, keys: seq<string>) returns (rendered: string)
      requires Printable(plain) && Lists(keys, values)
      ensures rendered == Saved(plain, keys, values)
      ensures Load(rendered) == values <==> Intact(plain, keys, values)
    {
      hide Printable, Load, Intact, FileLines, Join, Unlines;
      var lines := LinesToSave(plain, keys);
      rendered := Join(lines);
      if rendered != "" {
        rendered := rendered + "\n";
      }
      JoinedIsSaved(plain, keys, values);
      FileRoundTrip(plain, keys, values);
    }

    method LinesToSave(plain: char -> bool, keys: seq<string>) returns (lines: seq<string>)
      requires forall k :: k in keys ==> k in values
      ensures lines == FileLines(plain, keys, values)
    {
      hide EscapeEnvValue;
      lines := [];
      for i := 0 to |keys|
        invariant lines == FileLines(plain, keys, values)[..i]
      {
        assert keys[i] in keys;
        lines := lines + [keys[i] + "=" + EscapeEnvValue(plain, values[keys[i]])];
      }
    }
  }
}
