/** The system instruction of the agent (src/agent/instruction.ts): a fixed
    base text, optionally followed by the user's own instructions. */
module Instruction {
  import opened Wrappers
  import opened JsText

  /** The base text, wrapped at word boundaries; each `\n` ends one of its
      lines. */
  const BASE_INSTRUCTION: string :=
    "You are Crux, an expert infrastructure " +
    "operations agent running directly on " +
    "the user's machine.\n" +
    "\n" +
    "## Environment\n" +
    "\n" +
    "You are NOT sandboxed. You run on the " +
    "user's real workstation with full " +
    "access to:\n" +
    "- The local filesystem\n" +
    "- The local network and any reachable " +
    "remote hosts\n" +
    "- SSH, SCP, rsync, and any installed " +
    "CLI tools\n" +
    "- kubectl, docker, helm, and other " +
    "infrastructure CLIs\n" +
    "- curl, wget, nc, and other network " +
    "utilities\n" +
    "\n" +
    "## Tools\n" +
    "\n" +
    "You have two tools:\n" +
    "\n" +
    "1. **exec_command** — Run ANY shell " +
    "command on the local machine or remote " +
    "hosts via SSH.\n" +
    "2. **web_search** — Search the web via " +
    "DuckDuckGo. Returns titles, URLs, and " +
    "snippets.\n" +
    "\n" +
    "When the user asks you to SSH " +
    "somewhere, connect to a host, check a " +
    "server, run kubectl, etc., you MUST use " +
    "exec_command to do it. Never say you " +
    "\"can't access the network\" or \"don't " +
    "have SSH access\" — you do, through " +
    "exec_command.\n" +
    "\n" +
    "Examples of commands you should execute " +
    "without hesitation:\n" +
    "- `ssh user@host \"uptime\"`\n" +
    "- `kubectl get pods -n production`\n" +
    "- `docker ps`\n" +
    "- `curl -s " +
    "http://internal-service:8080/health`\n" +
    "- `scp file.txt user@host:/tmp/`\n" +
    "\n" +
    "## Guidelines\n" +
    "\n" +
    "- Use web_search when you need external " +
    "information — documentation, error " +
    "messages, package versions, how-tos — " +
    "before attempting a fix\n" +
    "- Explain what you're about to do " +
    "before executing commands\n" +
    "- Prefer investigating (reading files, " +
    "checking status) before making changes\n" +
    "- Show your reasoning — the user can " +
    "see your thought process\n" +
    "- If a command fails, analyze the error " +
    "and suggest concrete next steps\n" +
    "- Be concise and direct — avoid long " +
    "preambles\n" +
    "- Never refuse a command by claiming " +
    "you lack access. If something fails, " +
    "report the actual error"

  /** What separates the base text from a custom instruction. */
  const SEPARATOR: string := "\n\nAdditional instructions:\n"

  /** `buildInstruction(customInstruction?)`: the base text, followed by the
      separator and the custom instruction when one is given and not empty. */
  function BuildInstruction(custom: Option<string>): string {
    Extend(BASE_INSTRUCTION, custom)
  }

  /** `base`, followed by the separator and `custom` when that is given and
      not empty. */
  function Extend(base: string, custom: Option<string>): string {
    if Truthy(custom) then base + SEPARATOR + custom.value else base
  }

  /** An instruction starts with its base text (for the built instruction,
      `BASE_INSTRUCTION`). */
  lemma ExtendStartsWithBase(base: string, custom: Option<string>)
    ensures StartsWith(Extend(base, custom), base)
  {
    var r := Extend(base, custom);
    assert r[..|base|] == base;
  }

  /** A usable custom instruction ends the instruction and makes it strictly
      longer than its base text. */
  lemma ExtendEndsWithCustom(base: string, c: string)
    requires c != []
    ensures EndsWith(Extend(base, Some(c)), c) && |Extend(base, Some(c))| > |base|
  {
    var r := Extend(base, Some(c));
    assert r[|r| - |c|..] == c;
  }

  /** The instruction is the base text alone exactly when no usable custom
      instruction is given. */
  lemma BuildIsBase(custom: Option<string>)
    ensures BuildInstruction(custom) == BASE_INSTRUCTION <==> !Truthy(custom)
  {
    ExtendIsBase(BASE_INSTRUCTION, custom);
  }

  lemma ExtendIsBase(base: string, custom: Option<string>)
    ensures Extend(base, custom) == base <==> !Truthy(custom)
  {
    if Truthy(custom) {
      assert |Extend(base, custom)| > |base|;
    }
  }

  /** The custom instruction a built instruction carries: the text after the
      base and the separator, when there is any. */
  function CustomPart(r: string): (c: Option<string>)
    ensures c.Some? ==> Truthy(c) && r == BuildInstruction(c)
  {
    CustomAfter(BASE_INSTRUCTION, r)
  }

  /** The text after `base` and the separator, when `r` starts with both and
      goes on. */
  function CustomAfter(base: string, r: string): (c: Option<string>)
    ensures c.Some? ==> Truthy(c) && r == Extend(base, c)
  {
    var head := base + SEPARATOR;
    if |r| > |head| && r[..|head|] == head then Some(r[|head|..]) else None
  }

  /** `CustomPart` recovers exactly the custom instruction that was used, and
      finds none in the base text alone. */
  lemma CustomRoundTrip(custom: Option<string>)
    ensures CustomPart(BuildInstruction(custom)) == if Truthy(custom) then custom else None
  {
    ExtendRoundTrip(BASE_INSTRUCTION, custom);
  }

  lemma ExtendRoundTrip(base: string, custom: Option<string>)
    ensures CustomAfter(base, Extend(base, custom)) == if Truthy(custom) then custom else None
  {
    if Truthy(custom) {
      AfterAppended(base, custom.value);
    }
  }

  lemma AfterAppended(base: string, c: string)
    requires c != []
    ensures CustomAfter(base, base + SEPARATOR + c) == Some(c)
  {
    var head := base + SEPARATOR;
    var r := head + c;
    assert r[..|head|] == head;
    assert r[|head|..] == c;
  }
}
