// Ids of users, groups and connections, and what the commands of all of them answer
// (server/main/definition.hpp, server/manager/manager.cpp).

module Ids {
  type UserID = int
  type GroupID = int
  type ConnectionID = int

  const NO_USER: UserID := -1
  const FIRST_ID := 10000

  /** What a command answers: a success message, an error message, or an exception. */
  datatype Reply = Success | Failure | Thrown | Undefined

  datatype VerificationType = Sent | Received

  /** `emplace`: an existing key keeps its value. */
  function Emplace<K, V>(m: map<K, V>, k: K, v: V): map<K, V> {
    if k in m then m else m[k := v]
  }
}
