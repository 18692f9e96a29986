/**
  The four service credentials the agent reads once at start-up. None of
  them is validated: an empty key is a legal result and only fails later,
  inside the service client that uses it.
*/
module ApiKeys {

  import opened Environment

  const LiveAvatarApiKeyVar := "LIVEAVATAR_API_KEY"
  const OpenAiApiKeyVar := "OPENAI_API_KEY"
  const AltOpenAiApiKeyVar := "AI_INTEGRATIONS_OPENAI_API_KEY"
  const DeepgramApiKeyVar := "DEEPGRAM_API_KEY"
  const ElevenLabsApiKeyVar := "ELEVENLABS_API_KEY"

  /** The credentials, fixed for the lifetime of the process. */
  datatype Keys = Keys(liveAvatar: string, openAi: string, deepgram: string, elevenLabs: string)

  /**
    The language-model key: `OPENAI_API_KEY`, then
    `AI_INTEGRATIONS_OPENAI_API_KEY`, then the empty string, where a
    variable set to the empty string counts as unset.
  */
  function OpenAiApiKey(env: Env): (key: string)
    ensures IsSetNonEmpty(env, OpenAiApiKeyVar) ==> key == env[OpenAiApiKeyVar]
    ensures !IsSetNonEmpty(env, OpenAiApiKeyVar) && IsSetNonEmpty(env, AltOpenAiApiKeyVar) ==> key == env[AltOpenAiApiKeyVar]
    ensures !IsSetNonEmpty(env, OpenAiApiKeyVar) && !IsSetNonEmpty(env, AltOpenAiApiKeyVar) ==> key == ""
  {
    TruthyGetEnv(env, OpenAiApiKeyVar);
    TruthyGetEnv(env, AltOpenAiApiKeyVar);
    OrElse(Or(GetEnv(env, OpenAiApiKeyVar), GetEnv(env, AltOpenAiApiKeyVar)), "")
  }

  /** The module-level key resolution: each plain key is its variable's value, or empty when unset. */
  function LoadKeys(env: Env): (keys: Keys)
    ensures keys.liveAvatar == if LiveAvatarApiKeyVar in env then env[LiveAvatarApiKeyVar] else ""
    ensures keys.openAi == OpenAiApiKey(env)
    ensures keys.deepgram == if DeepgramApiKeyVar in env then env[DeepgramApiKeyVar] else ""
    ensures keys.elevenLabs == if ElevenLabsApiKeyVar in env then env[ElevenLabsApiKeyVar] else ""
  {
    Keys(
      GetEnvOr(env, LiveAvatarApiKeyVar, ""),
      OpenAiApiKey(env),
      GetEnvOr(env, DeepgramApiKeyVar, ""),
      GetEnvOr(env, ElevenLabsApiKeyVar, ""))
  }

  /** The primary variable wins whenever it is set and non-empty, whatever the alternate holds. */
  lemma PrimaryOpenAiKeyWins(env: Env, alt: string)
    requires IsSetNonEmpty(env, OpenAiApiKeyVar)
    ensures OpenAiApiKey(env[AltOpenAiApiKeyVar := alt]) == env[OpenAiApiKeyVar]
  {
  }

  /** A variable set to the empty string behaves exactly as if it were unset. */
  lemma EmptyOpenAiKeyCountsAsUnset(env: Env, name: string)
    requires name == OpenAiApiKeyVar || name == AltOpenAiApiKeyVar
    requires name in env && env[name] == ""
    ensures OpenAiApiKey(env) == OpenAiApiKey(env - {name})
  {
  }

  /** The language-model key is empty exactly when neither variable holds a non-empty value, and otherwise it is one of them. */
  lemma OpenAiKeyEmptyIff(env: Env)
    ensures OpenAiApiKey(env) == "" <==> !IsSetNonEmpty(env, OpenAiApiKeyVar) && !IsSetNonEmpty(env, AltOpenAiApiKeyVar)
    ensures OpenAiApiKey(env) != "" ==>
      (OpenAiApiKeyVar in env && OpenAiApiKey(env) == env[OpenAiApiKeyVar]) ||
      (AltOpenAiApiKeyVar in env && OpenAiApiKey(env) == env[AltOpenAiApiKeyVar])
  {
  }

  /** A plain key set to the empty string stays empty: no fallback applies to it. */
  lemma PlainKeysHaveNoFallback(env: Env)
    ensures LoadKeys(env).liveAvatar == "" <==> LiveAvatarApiKeyVar !in env || env[LiveAvatarApiKeyVar] == ""
    ensures LoadKeys(env).deepgram == "" <==> DeepgramApiKeyVar !in env || env[DeepgramApiKeyVar] == ""
    ensures LoadKeys(env).elevenLabs == "" <==> ElevenLabsApiKeyVar !in env || env[ElevenLabsApiKeyVar] == ""
  {
  }

}
