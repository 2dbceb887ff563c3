/** The `status` every prompt keeps: `'idle'`, `'loading'` or `'done'`. */
module PromptStatus {
  datatype Status = Idle | Loading | Done
}
