/** The PJSIP section files: agents appended and deleted, providers replaced
    (src/utils/pjsip-writer.ts). */
module Pjsip {
  import opened Text
  import opened Dialplan
  import opened DialplanLaws

  /** A named section; the entries of its config in their order. */
  datatype Section = Section(name: string, config: seq<(string, string)>)

  function Entry(e: (string, string)): string {
    e.0 + "=" + e.1
  }

  function EntryLines(config: seq<(string, string)>): seq<string> {
    if config == [] then [] else [Entry(config[0])] + EntryLines(config[1..])
  }

  /** The entries whose key is not `name`. */
  function Unnamed(config: seq<(string, string)>): seq<(string, string)> {
    if config == [] then []
    else (if config[0].0 == "name" then [] else [config[0]]) + Unnamed(config[1..])
  }

  // ---- the agents' file ----

  function FormatBlock(s: Section): string {
    "\n" + Mark(s.name) + ("\n" + Join(EntryLines(Unnamed(s.config)), "\n") + "\n")
  }

  /** Blocks one after another; three of them for an agent. */
  function BuildBlocks(sections: seq<Section>): string {
    if sections == [] then "" else FormatBlock(sections[0]) + BuildBlocks(sections[1..])
  }

  /** How much `(\n|\r|\r\n)?\[name\]` matches at the head of `s`. */
  function Opening(s: string, name: string): (n: Option<nat>)
    ensures n.Some? ==> 0 < n.value <= |s|
  {
    var n := |name| + 2;
    if StartsWith(s, Mark(name)) then Some(n)
    else if s != "" && (s[0] == '\n' || s[0] == '\r') && StartsWith(s[1..], Mark(name)) then Some(n + 1)
    else if |s| > 1 && s[0] == '\r' && s[1] == '\n' && StartsWith(s[2..], Mark(name)) then Some(n + 2)
    else None
  }

  /** What is left after the lazy `[\s\S]*?(?=\n\[|\r\n\[|$)`. */
  function SkipAgent(s: string): (r: string)
    ensures |r| <= |s|
  {
    if s == "" || StartsWith(s, "\n[") || StartsWith(s, "\r\n[") then s else SkipAgent(s[1..])
  }

  /** `s` without every match of the agent pattern for `name`. */
  function CutAgent(s: string, name: string): string
    decreases |s|
  {
    var open := Opening(s, name);
    if open.Some? then CutAgent(SkipAgent(s[open.value..]), name)
    else if s == "" then ""
    else [s[0]] + CutAgent(s[1..], name)
  }

  function CutAgents(s: string, names: seq<string>): string
    decreases names
  {
    if names == [] then s else CutAgents(CutAgent(s, names[0]), names[1..])
  }

  /** The agents' file after an agent is written ... */
  function WithAgent(content: string, endpoint: Section, auth: Section, aor: Section): string {
    content + BuildBlocks([endpoint, auth, aor])
  }

  /** ... and after sections of these names are deleted. */
  function WithoutAgents(content: string, names: seq<string>): string {
    Trim(CutAgents(content, names)) + "\n"
  }

  // ---- the provider file ----

  function SectionText(s: Section): string {
    Join([Mark(s.name)] + EntryLines(s.config), "\n")
  }

  function SectionTexts(sections: seq<Section>): (r: seq<string>)
    ensures |r| == |sections|
  {
    if sections == [] then [] else [SectionText(sections[0])] + SectionTexts(sections[1..])
  }

  /** The sections with an empty line between them. */
  function ProviderText(sections: seq<Section>): string {
    Join(SectionTexts(sections), "\n\n")
  }

  /** What is left after the greedy `[^\[]+`. */
  function ToBracket(s: string): (r: string)
    ensures |r| <= |s|
    ensures r == "" || r[0] == '['
  {
    if s == "" || s[0] == '[' then s else ToBracket(s[1..])
  }

  /** `s` without every match of `\[name\][^\[]+`. */
  function CutSection(s: string, name: string): string
    decreases |s|
  {
    var n := |name| + 2;
    if StartsWith(s, Mark(name)) && n < |s| && s[n] != '[' then CutSection(ToBracket(s[n..]), name)
    else if s == "" then ""
    else [s[0]] + CutSection(s[1..], name)
  }

  /** One pass per name, trimmed after each. */
  function Cleaned(s: string, names: seq<string>): string
    decreases names
  {
    if names == [] then s else Cleaned(Trim(CutSection(s, names[0])), names[1..])
  }

  function Names(sections: seq<Section>): (r: seq<string>)
    ensures |r| == |sections|
    ensures forall i :: 0 <= i < |r| ==> r[i] == sections[i].name
  {
    if sections == [] then [] else [sections[0].name] + Names(sections[1..])
  }

  function Replaced(content: string, sections: seq<Section>): string {
    var cleaned, generated := Cleaned(content, Names(sections)), ProviderText(sections);
    (if cleaned == "" then generated
     else if generated == "" then cleaned
     else cleaned + "\n\n" + generated)
    + "\n"
  }

  // ---- the two files ----

  class PjsipFiles {
    var agents: string
    var providers: string

    constructor (agents: string, providers: string)
      ensures this.agents == agents && this.providers == providers
    {
      this.agents, this.providers := agents, providers;
    }

    method WriteAgent(endpoint: Section, auth: Section, aor: Section)
      modifies this`agents
      ensures agents == WithAgent(old(agents), endpoint, auth, aor)
    {
      var block := FormatBlock(endpoint) + FormatBlock(auth) + FormatBlock(aor);
      BuildThree(endpoint, auth, aor);
      agents := agents + block;
    }

    method DeleteAgents(names: seq<string>)
      modifies this`agents
      ensures agents == WithoutAgents(old(agents), names)
    {
      var newContent := agents;
      for i := 0 to |names|
        invariant CutAgents(newContent, names[i..]) == CutAgents(agents, names)
        invariant agents == old(agents)
      {
        assert names[i..][1..] == names[i + 1..];
        newContent := CutAgent(newContent, names[i]);
      }
      agents := Trim(newContent) + "\n";
    }

    method WriteProvider(sections: seq<Section>)
      modifies this`providers
      ensures providers == ProviderText(sections)
    {
      providers := GenerateProviderSection(sections);
    }

    method ReplaceProvider(sections: seq<Section>)
      modifies this`providers
      ensures providers == Replaced(old(providers), sections)
    {
      var cleaned := providers;
      var names := Names(sections);
      for i := 0 to |names|
        invariant Cleaned(cleaned, names[i..]) == Cleaned(providers, names)
        invariant providers == old(providers)
      {
        assert names[i..][1..] == names[i + 1..];
        cleaned := Trim(CutSection(cleaned, names[i]));
      }
      assert cleaned == Cleaned(providers, names);
      var generated := GenerateProviderSection(sections);
      var parts: seq<string> := [];
      if cleaned != "" {
        parts := parts + [cleaned];
      }
      if generated != "" {
        parts := parts + [generated];
      }
      if |parts| == 2 {
        assert parts[1..] == [generated];
      }
      assert |parts| == 1 ==> Join(parts, "\n\n") == parts[0];
      assert |parts| == 2 ==> Join(parts, "\n\n") == cleaned + "\n\n" + generated;
      assert |parts| == 0 ==> generated == "";
      providers := Join(parts, "\n\n") + "\n";
    }
  }

  lemma BuildThree(a: Section, b: Section, c: Section)
    ensures BuildBlocks([a, b, c]) == FormatBlock(a) + FormatBlock(b) + FormatBlock(c)
  {
    assert [a, b, c][1..] == [b, c] && [b, c][1..] == [c];
    assert BuildBlocks([c]) == FormatBlock(c) + BuildBlocks([]);
  }

  method GenerateProviderSection(sections: seq<Section>) returns (text: string)
    ensures text == ProviderText(sections)
  {
    var texts: seq<string> := [];
    for i := 0 to |sections|
      invariant texts + SectionTexts(sections[i..]) == SectionTexts(sections)
    {
      var s := sections[i];
      var lines := [Mark(s.name)];
      for j := 0 to |s.config|
        invariant lines + EntryLines(s.config[j..]) == [Mark(s.name)] + EntryLines(s.config)
      {
        assert s.config[j..][1..] == s.config[j + 1..];
        lines := lines + [s.config[j].0 + "=" + s.config[j].1];
      }
      assert sections[i..][1..] == sections[i + 1..];
      assert lines == [Mark(s.name)] + EntryLines(s.config);
      texts := texts + [Join(lines, "\n")];
    }
    assert texts == SectionTexts(sections);
    text := Join(texts, "\n\n");
  }
}
