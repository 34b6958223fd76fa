/** Telegram user identities: `ctx.from.id`, a positive integer. */
module Identity {

  type UserId = n: nat | n > 0 witness 1
}
