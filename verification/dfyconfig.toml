includes = ["**/*.dfy"]

[options]
warn-contradictory-assumptions = true
resource-limit = "2000000"
verification-time-limit = 0
