/**
 * The user groups the handlers and the middleware compare against. The type
 * and its database column live in models.go, which is not part of this
 * model; only the values the handlers name are kept, plus the value a user
 * without a stored group reads as.
 */
module UserGroups {
  datatype UserGroup = UGNone | UGUser | UGAdmin | UGBanned
}
