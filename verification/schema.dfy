/** The column names shared by the scoring entry point and its callers. */
module Schema {

  /** Input column holding the question of a row. */
  const PROMPT_COLUMN_NAME: string := "promptText"

  /** Output column holding the answer (or the error trace) of a row. */
  const TARGET_COLUMN_NAME: string := "resultText"
}
