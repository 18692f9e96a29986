# LiveAvatar agent: credential and avatar-identifier resolution

The LiveKit agent script `scripts/avatar_agent.py` starts one conversational
session per room join. It wires a speech-to-text client, a language model, a
text-to-speech client and a LiveAvatar renderer together. The script holds
only two pieces of logic of its own, and this project models both as pure
Dafny functions over the process environment (a `map<string, string>`):

- **Credential loading** (module `ApiKeys`). Four API keys are read when the
  process starts. The language-model key tries `OPENAI_API_KEY`, then
  `AI_INTEGRATIONS_OPENAI_API_KEY`, then the empty string. Python's `or` is
  used there, so a variable set to `""` counts as unset. The LiveAvatar,
  Deepgram and ElevenLabs keys are the variable's value, or `""` when the
  variable is unset. No key is validated.
- **Avatar-identifier resolution** (module `AvatarId`). A room named
  `liveavatar-<avatar id>-<extra>-<extra>` names its avatar: the name is split
  on `-`, and when there are at least four parts the identifier is the
  hyphen-join of all parts except the first and the last two. Otherwise, or
  when that join is empty, the identifier is `LIVEAVATAR_AVATAR_ID` from the
  environment. When that variable is unset, the literal
  `josh_lite3_20230714` is used.

Supporting modules:

- `PyStr` gives Python's `str.startswith`, `str.split` with a one-character
  separator, `sep.join` and list slicing with negative bounds. It proves that
  split and join are inverses.
- `Environment` gives `os.getenv` with and without a default, and Python
  truthiness and `or` on `str | None`.
- `Optional` holds the `Option` datatype.

The main results:

- Each branch of the resolution is stated as its own lemma, including the
  `>= 4` boundary and the empty-middle case.
- Two round trips are proved. The parsed identifier splits back into the
  middle parts, and the room name can be rebuilt from the identifier and the
  last two parts. In the other direction, a room name built from a non-empty
  identifier and two hyphen-free trailing segments resolves to that
  identifier.
- The `len(parts) >= 4` guard never changes the result. With fewer parts the
  slice `parts[1:-2]` is empty, so its join is `""`, and the fallback is
  taken either way.
- Because the fallback ends in a literal, one might expect the identifier
  never to be empty. The code returns `LIVEAVATAR_AVATAR_ID` whenever that
  variable is set, even when it is set to the empty string. The model
  follows the code:
  `ResolveAvatarId` guarantees a non-empty result only when that variable is
  unset or non-empty, and `EmptyFallbackIsPassedThrough` shows the empty case.

## Model

| member | source | states |
|---|---|---|
| `PyStr.StartsWith` | scripts/avatar_agent.py:55 | `s.startswith(p)` holds exactly when `p` is no longer than `s` and `s` agrees with `p` at every position of `p` |
| `PyStr.StartsWithConcat` | scripts/avatar_agent.py:55 | `s.startswith(p)` holds exactly when `s` is `p` followed by the rest of `s` |
| `PyStr.Split` | scripts/avatar_agent.py:56 | `split("-")` yields one more part than there are hyphens (so `""` gives `[""]`), and no part contains a hyphen |
| `PyStr.Join` | scripts/avatar_agent.py:58 | `"-".join(parts)` is empty exactly when `parts` is `[]` or `[""]`; with two or more parts it contains the separator |
| `PyStr.SliceBound` | scripts/avatar_agent.py:58 | a slice bound is read as Python reads it: a negative bound counts from the end, and out-of-range bounds are clamped to `0..n` |
| `PyStr.Slice` | scripts/avatar_agent.py:58 | `xs[start:stop]` never fails and is never longer than `xs` |
| `PyStr.SliceDropsFirstAndLastTwo` | scripts/avatar_agent.py:58 | `parts[1:-2]` is `parts` without its first and last two elements when there are at least 3, and is empty below 4, so its join is `""` |
| `PyStr.SplitNoSeparator` | scripts/avatar_agent.py:56 | a string without the separator splits into itself alone |
| `PyStr.SplitAtFirstSeparator` | scripts/avatar_agent.py:56 | `(p + "-" + t).split("-")` is `[p]` followed by `t.split("-")` when `p` has no hyphen |
| `PyStr.SplitAfterHead` | scripts/avatar_agent.py:55-56 | a string that starts with `head + "-"` splits into `head` followed by the parts of the rest |
| `PyStr.JoinSplit` | scripts/avatar_agent.py:56-58 | `"-".join(s.split("-")) == s` for every string |
| `PyStr.SplitJoin` | scripts/avatar_agent.py:56-58 | `"-".join(parts).split("-") == parts` for every non-empty list of hyphen-free parts |
| `PyStr.JoinAt` | scripts/avatar_agent.py:58 | the join of a list is the join of a prefix, the separator, and the join of the rest |
| `PyStr.JoinTwo` | scripts/avatar_agent.py:58 | `"-".join([a, b])` is `a + "-" + b` |
| `PyStr.SplitThree` | scripts/avatar_agent.py:56 | three hyphen-free pieces joined by hyphens split back into exactly those three pieces |
| `PyStr.JoinFirstMiddleLastTwo` | scripts/avatar_agent.py:56-58 | the join of four or more parts is the first part, the join of the middle, and the last two parts, all separated by hyphens |
| `Environment.GetEnv` | scripts/avatar_agent.py:23 | `os.getenv(name)` is `None` exactly when the variable is unset, and otherwise it is the variable's value |
| `Environment.GetEnvOr` | scripts/avatar_agent.py:61 | `os.getenv(name, default)` gives the default only for an unset variable, never for an empty one |
| `Environment.Truthy` | scripts/avatar_agent.py:23 | an optional string (`str` or `None`) is falsy exactly when it is `None` or `""`, the truthiness that `or` (line 23) and `not avatar_id` (line 60) test |
| `Environment.Or` | scripts/avatar_agent.py:23 | Python `a or b` is `a` when `a` is truthy and `b` otherwise; the result is truthy exactly when `a` or `b` is |
| `Environment.OrElse` | scripts/avatar_agent.py:23 | `a or ""` is the value of `a` when it is truthy, else the default |
| `Environment.TruthyGetEnv` | scripts/avatar_agent.py:23 | `os.getenv(name)` is truthy exactly when the variable is set to a non-empty value |
| `ApiKeys.OpenAiApiKey` | scripts/avatar_agent.py:23 | the language-model key is `OPENAI_API_KEY` if it is set and non-empty, else `AI_INTEGRATIONS_OPENAI_API_KEY` if that is set and non-empty, else `""` |
| `ApiKeys.LoadKeys` | scripts/avatar_agent.py:22-25 | the LiveAvatar, Deepgram and ElevenLabs keys are the variable's value, or `""` when unset; the language-model key follows its fallback chain |
| `ApiKeys.PrimaryOpenAiKeyWins` | scripts/avatar_agent.py:23 | a set, non-empty `OPENAI_API_KEY` is chosen whatever `AI_INTEGRATIONS_OPENAI_API_KEY` holds |
| `ApiKeys.EmptyOpenAiKeyCountsAsUnset` | scripts/avatar_agent.py:23 | either language-model variable set to `""` gives the same key as removing that variable |
| `ApiKeys.OpenAiKeyEmptyIff` | scripts/avatar_agent.py:23 | the language-model key is empty exactly when neither variable is set and non-empty, and a non-empty key is the value of one of them |
| `ApiKeys.PlainKeysHaveNoFallback` | scripts/avatar_agent.py:22-25 | each plain key is empty exactly when its variable is unset or empty, so no validation or fallback applies |
| `AvatarId.RoomParts` | scripts/avatar_agent.py:56 | a room name has at least one hyphen-separated part |
| `AvatarId.ParseRoomName` | scripts/avatar_agent.py:53-58 | an identifier is parsed exactly when the name starts with `liveavatar-` and has at least three hyphens (four parts) |
| `AvatarId.FallbackAvatarId` | scripts/avatar_agent.py:61 | the fallback is `LIVEAVATAR_AVATAR_ID` whenever it is set (even to `""`), and `josh_lite3_20230714` only when it is unset |
| `AvatarId.ResolveAvatarId` | scripts/avatar_agent.py:52-61 | the resolved identifier is never empty unless `LIVEAVATAR_AVATAR_ID` is set to `""` |
| `AvatarId.ResolveWithoutPrefix` | scripts/avatar_agent.py:55-61 | a room name without the `liveavatar-` prefix resolves to the fallback |
| `AvatarId.ResolveTooFewParts` | scripts/avatar_agent.py:55-61 | with the prefix but fewer than four parts (fewer than three hyphens) the fallback is used |
| `AvatarId.ResolveParsed` | scripts/avatar_agent.py:55-58 | with the prefix, at least four parts and a non-empty joined middle, the result is that join, whatever the environment holds |
| `AvatarId.MiddleEmptyIff` | scripts/avatar_agent.py:57-60 | for four or more parts the joined middle is empty exactly when there are four parts and the second is empty |
| `AvatarId.ResolveEmptyMiddle` | scripts/avatar_agent.py:58-61 | an empty joined middle is parsed as `""`, and the `not avatar_id` test sends it to the fallback |
| `AvatarId.LengthGuardIsRedundant` | scripts/avatar_agent.py:55-61 | for every prefixed name, the result equals the unguarded rule "joined `parts[1:-2]` if non-empty, else the fallback" |
| `AvatarId.PrefixIsFirstPart` | scripts/avatar_agent.py:55-56 | a name with the prefix splits into `liveavatar` followed by at least one more part |
| `AvatarId.ParsedRoundTrip` | scripts/avatar_agent.py:56-58 | a parsed identifier splits into exactly `parts[1:-2]`, and the room name is `liveavatar-` + identifier + `-` + `parts[-2]` + `-` + `parts[-1]` |
| `AvatarId.RoomNameFor` | scripts/avatar_agent.py:55 | a room name built from an identifier and two trailing segments carries the `liveavatar-` prefix |
| `AvatarId.ResolveRoomNameFor` | scripts/avatar_agent.py:55-60 | a room named `liveavatar-<id>-<a>-<b>` with non-empty `id` and hyphen-free `a`, `b` resolves to `id` in every environment |
| `AvatarId.ExampleHyphenatedId` | scripts/avatar_agent.py:55-58 | `liveavatar-josh-lite3-sess-extra` resolves to `josh-lite3` |
| `AvatarId.ExampleSingleSegmentId` | scripts/avatar_agent.py:55-58 | `liveavatar-josh_lite3-sess123-abc` resolves to `josh_lite3` |
| `AvatarId.ExampleNoPrefix` | scripts/avatar_agent.py:55-61 | `random-room` resolves to the fallback, which is `josh_lite3_20230714` in an empty environment |
| `AvatarId.ExampleThreeParts` | scripts/avatar_agent.py:56-61 | `liveavatar-josh-extra` has three parts and resolves to the fallback |
| `AvatarId.ExampleEmptyMiddle` | scripts/avatar_agent.py:57-61 | `liveavatar---x` has four parts, so it passes the length guard and parses to `""`; the `not avatar_id` test then sends it to the fallback |
| `AvatarId.EmptyFallbackIsPassedThrough` | scripts/avatar_agent.py:55-61 | every room name that yields no truthy identifier (no prefix, fewer than four parts, or an empty middle) resolves to `""` when `LIVEAVATAR_AVATAR_ID` is set to `""` |

## Left out

- Loading of `.env.local` and `.env` (scripts/avatar_agent.py:19-20) is library behaviour. The model takes the resulting environment as a given map.
- Construction of the Deepgram, OpenAI, ElevenLabs, `AgentSession` and LiveAvatar clients (scripts/avatar_agent.py:67-92) is not modelled. These are foreign SDK calls with fixed parameters.
- The awaited `avatar.start` and `session.start` calls and the greeting `generate_reply` (scripts/avatar_agent.py:94-104) are not modelled. They are asynchronous calls into external services, so their ordering is not modelled either.
- The `AvatarAssistant` persona (scripts/avatar_agent.py:28-38) is not modelled. It only stores a fixed instruction string and the avatar identifier.
- Logging, the `AgentServer` registration and the CLI entry point (scripts/avatar_agent.py:41-50, 63-65, 106-110) are I/O and framework plumbing.
- `PyStr.Split` and `PyStr.Join` take a one-character separator, which is the only kind the script uses. Python's multi-character separators are not modelled.
- Strings are sequences of characters. No Unicode normalisation is involved, since the script compares only ASCII hyphens and a literal prefix.
