/** The code actions the editor offers on a selection (`ExtractProvider.getCommands`): three
    ways of extracting the selected text into a key, each with the template the new key is
    written into, and the search for an existing entry. */
module Editor {
  import opened Strings

  /** `keyReplace(template)(key)`: `template.replace(/{key}/g, key)`. */
  function KeyReplace(template: string, key: string): string {
    ReplaceAll(template, "{key}", key)
  }

  /** What a code action runs: the extract command with the template its `keyReplace` closes
      over, or the search command, which receives `keyReplace` itself. */
  datatype Action = ExtractWith(template: string) | FindWithTemplates

  datatype CodeAction = CodeAction(command: string, title: string, action: Action)

  /** The three extract templates, written around the placeholder. */
  const InterpolationTemplate := "{{ $t('" + "{key}" + "') }}"
  const ScriptTemplate := "this.$t('" + "{key}" + "')"
  const LiteralTemplate := "$t('key')"

  const ExtractCommand := "vue-i18n-simple.extract"
  const FindCommand := "vue-i18n-simple.findI18n"

  /** `getCommands(params)`, without the editor parameters it spreads into every argument. */
  function GetCommands(): (cs: seq<CodeAction>)
    ensures |cs| == 4
    ensures forall i :: 0 <= i < 3 ==> cs[i].command == ExtractCommand && cs[i].action.ExtractWith?
    ensures cs[3] == CodeAction(FindCommand, "查询已有语言库", FindWithTemplates)
  {
    [ CodeAction(ExtractCommand, "提取为{{$t('key')}}", ExtractWith(InterpolationTemplate)),
      CodeAction(ExtractCommand, "提取为this.$t('key')", ExtractWith(ScriptTemplate)),
      CodeAction(ExtractCommand, "提取为$t('key')", ExtractWith(LiteralTemplate)),
      CodeAction(FindCommand, "查询已有语言库", FindWithTemplates) ]
  }

  /** The first two extract actions write the key into a `$t` call, in a template interpolation
      and as `this.$t` in script code. */
  lemma ExtractTemplatesInsertKey(key: string)
    ensures KeyReplace(GetCommands()[0].action.template, key) == "{{ $t('" + key + "') }}"
    ensures KeyReplace(GetCommands()[1].action.template, key) == "this.$t('" + key + "')"
  {
    ReplaceAllOnce("{{ $t('", "{key}", "') }}", key);
    ReplaceAllOnce("this.$t('", "{key}", "')", key);
  }

  /** The third extract action's template has no `{key}` placeholder, so it inserts the same
      text, `$t('key')`, whatever key was chosen. */
  lemma ThirdTemplateIgnoresKey(key: string)
    ensures KeyReplace(GetCommands()[2].action.template, key) == "$t('key')"
  {
    AbsentFirstChar("$t('key')", "{key}");
    ReplaceAllAbsent("$t('key')", "{key}", key);
  }
}
