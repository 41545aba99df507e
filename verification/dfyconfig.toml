includes = ["**/*.dfy"]

[options]
warn-contradictory-assumptions = true
verification-time-limit = 0
